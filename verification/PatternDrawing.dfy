/** Drawing the function patterns into an empty symbol, part by part, gives exactly the pattern of the version. */
module PatternDrawing {
  import opened Bits
  import opened Modules
  import opened Placement
  import opened VersionTable
  import opened FunctionPattern

  const FUNC: bv8 := 4
  const FUNC_BLACK: bv8 := 6

  // ---- The pattern ----

  /** Three nested squares, seven modules wide. */
  predicate FinderIsBlack(i: int, j: int) {
    i == 0 || i == 6 || j == 0 || j == 6 || (2 <= i <= 4 && 2 <= j <= 4)
  }

  predicate AlignmentIsBlack(y: int, x: int) {
    y == 0 || y == 4 || x == 0 || x == 4 || (y == 2 && x == 2)
  }

  function Ring(i: int, j: int): nat {
    var a, b := if i < 0 then -i else i, if j < 0 then -j else j;
    if a > b then a else b
  }

  /** Both patterns are rings around their centre: of a finder the third is light, of an alignment pattern the second. */
  lemma PatternsAreRings()
    ensures forall i, j :: 0 <= i < 7 && 0 <= j < 7 ==> (FinderIsBlack(i, j) <==> Ring(i - 3, j - 3) != 2)
    ensures forall i, j :: 0 <= i < 5 && 0 <= j < 5 ==> (AlignmentIsBlack(i, j) <==> Ring(i - 2, j - 2) != 1)
  {
  }

  /** Lines through the middle of a finder are dark, light, three dark, light, dark. */
  lemma FinderRatio(a: int, b: int)
    requires 2 <= a <= 4 && 0 <= b < 7
    ensures FinderIsBlack(a, b) == FinderIsBlack(b, a) == [true, false, true, true, true, false, true][b]
  {
  }

  predicate InFinder(d: nat, y: int, x: int) {
    (0 <= y < 7 && 0 <= x < 7) || (0 <= y < 7 && d - 7 <= x < d) || (d - 7 <= y < d && 0 <= x < 7)
  }

  /** Distance from the nearer end of a row or column, at the ends. */
  function Fold(d: nat, a: int): int {
    if a >= d - 7 then d - 1 - a else a
  }

  predicate AlignmentIsBlackAt(cs: seq<int>, y: int, x: int) {
    exists i, j :: 0 <= i < |cs| && 0 <= j < |cs| && IsPlaced(|cs|, i, j) && Near(y, cs[i]) && Near(x, cs[j])
                   && AlignmentIsBlack(y - cs[i] + 2, x - cs[j] + 2)
  }

  /** The dark modules of the function pattern, before format and version information. */
  predicate PatternIsBlack(d: nat, cs: seq<int>, y: int, x: int) {
    if InFinder(d, y, x) then FinderIsBlack(Fold(d, y), Fold(d, x))
    else if InAlignment(cs, y, x) then AlignmentIsBlackAt(cs, y, x)
    else InTiming(y, x) && (y + x) % 2 == 0
  }

  lemma NoAlignmentInCorner(d: nat, cs: seq<int>, y: int, x: int)
    requires d >= 21 && Spaced(cs, d) && InAlignment(cs, y, x)
    ensures !InCorner(d, y, x) && !InFinder(d, y, x) && !InVersionInfo(7, d, y, x)
  {
    var i, j :| 0 <= i < |cs| && 0 <= j < |cs| && IsPlaced(|cs|, i, j) && Near(y, cs[i]) && Near(x, cs[j]);
    if i > 0 { SpacedApart(cs, d, 0, i); }
    if j > 0 { SpacedApart(cs, d, 0, j); }
    if i < |cs| - 1 { SpacedApart(cs, d, i, |cs| - 1); }
    if j < |cs| - 1 { SpacedApart(cs, d, j, |cs| - 1); }
  }

  lemma AlignmentUnique(d: nat, cs: seq<int>, i: nat, j: nat, y: int, x: int)
    requires Spaced(cs, d) && i < |cs| && j < |cs| && IsPlaced(|cs|, i, j) && Near(y, cs[i]) && Near(x, cs[j])
    ensures AlignmentIsBlackAt(cs, y, x) == AlignmentIsBlack(y - cs[i] + 2, x - cs[j] + 2)
  {
    if AlignmentIsBlackAt(cs, y, x) {
      var k, l :| 0 <= k < |cs| && 0 <= l < |cs| && IsPlaced(|cs|, k, l) && Near(y, cs[k]) && Near(x, cs[l])
                  && AlignmentIsBlack(y - cs[k] + 2, x - cs[l] + 2);
      if k < i { SpacedApart(cs, d, k, i); } else if i < k { SpacedApart(cs, d, i, k); }
      if l < j { SpacedApart(cs, d, l, j); } else if j < l { SpacedApart(cs, d, j, l); }
    }
  }

  lemma TimingInAlignment(d: nat, cs: seq<int>, i: nat, j: nat, y: int, x: int)
    requires d >= 21 && Spaced(cs, d) && AllEven(cs) && InTiming(y, x)
    requires i < |cs| && j < |cs| && IsPlaced(|cs|, i, j) && Near(y, cs[i]) && Near(x, cs[j])
    ensures AlignmentIsBlack(y - cs[i] + 2, x - cs[j] + 2) == ((y + x) % 2 == 0)
  {
    if i > 0 { SpacedApart(cs, d, 0, i); }
    if j > 0 { SpacedApart(cs, d, 0, j); }
    hide Spaced;
    assert cs[i] % 2 == 0 && cs[j] % 2 == 0;
  }

  /** Timing patterns keep their colour where they cross alignment patterns. */
  lemma TimingThroughAlignment(d: nat, cs: seq<int>, y: int, x: int)
    requires d >= 21 && Spaced(cs, d) && AllEven(cs) && InTiming(y, x) && !InFinder(d, y, x)
    ensures PatternIsBlack(d, cs, y, x) == ((y + x) % 2 == 0)
  {
    hide Spaced, AllEven, AlignmentIsBlackAt, AlignmentIsBlack, InFinder, FinderIsBlack, IsPlaced, Near, InTiming;
    if InAlignment(cs, y, x) {
      var i, j :| 0 <= i < |cs| && 0 <= j < |cs| && IsPlaced(|cs|, i, j) && Near(y, cs[i]) && Near(x, cs[j]);
      AlignmentUnique(d, cs, i, j, y, x);
      TimingInAlignment(d, cs, i, j, y, x);
    }
  }

  lemma FinderColours(d: nat, cs: seq<int>, i: nat, j: nat)
    requires d >= 21 && i < 7 && j < 7
    ensures PatternIsBlack(d, cs, i, j) == FinderIsBlack(i, j)
    ensures PatternIsBlack(d, cs, i, d - 1 - j) == FinderIsBlack(i, j)
    ensures PatternIsBlack(d, cs, d - 1 - i, j) == FinderIsBlack(i, j)
  {
    hide FinderIsBlack;
  }

  /** The rest of the corners is light, but for the timing patterns. */
  lemma CornerColour(d: nat, cs: seq<int>, y: int, x: int)
    requires d >= 21 && Spaced(cs, d) && !InFinder(d, y, x)
    requires InCorner(d, y, x) || InVersionInfo(7, d, y, x)
    ensures PatternIsBlack(d, cs, y, x) == (InTiming(y, x) && (y + x) % 2 == 0)
  {
    hide FinderIsBlack, AlignmentIsBlackAt, InAlignment, Spaced;
    if InAlignment(cs, y, x) {
      NoAlignmentInCorner(d, cs, y, x);
    }
  }

  lemma SeparatorColours(d: nat, cs: seq<int>, i: nat)
    requires d >= 21 && d % 4 == 1 && Spaced(cs, d) && i < 8
    ensures !PatternIsBlack(d, cs, i, 7) && !PatternIsBlack(d, cs, 7, i)
    ensures !PatternIsBlack(d, cs, i, d - 8) && !PatternIsBlack(d, cs, d - 8, i)
    ensures !PatternIsBlack(d, cs, d - 1 - i, 7) && !PatternIsBlack(d, cs, 7, d - 1 - i)
  {
    hide PatternIsBlack, Spaced;
    CornerColour(d, cs, i, 7);
    CornerColour(d, cs, 7, i);
    CornerColour(d, cs, i, d - 8);
    CornerColour(d, cs, d - 8, i);
    CornerColour(d, cs, d - 1 - i, 7);
    CornerColour(d, cs, 7, d - 1 - i);
  }

  lemma AlignmentColour(d: nat, cs: seq<int>, i: nat, j: nat, y: int, x: int)
    requires d >= 21 && Spaced(cs, d) && i < |cs| && j < |cs| && IsPlaced(|cs|, i, j) && Near(y, cs[i]) && Near(x, cs[j])
    ensures PatternIsBlack(d, cs, y, x) == AlignmentIsBlack(y - cs[i] + 2, x - cs[j] + 2)
  {
    hide FinderIsBlack, AlignmentIsBlackAt, AlignmentIsBlack, Spaced, InFinder;
    assert InAlignment(cs, y, x);
    AlignmentUnique(d, cs, i, j, y, x);
    NoAlignmentInCorner(d, cs, y, x);
  }

  // ---- Drawing ----

  /** The cells of s carry the pattern, everything else is empty. */
  ghost predicate Drawn(g: Grid, d: nat, cs: seq<int>, s: set<Cell>) {
    && IsGrid(g, d)
    && forall y, x :: Inside(d, y, x) ==>
      (if (y, x) in s then IsFunc(At(g, d, y, x)) && !IsData(At(g, d, y, x)) && IsBlack(At(g, d, y, x)) == PatternIsBlack(d, cs, y, x)
       else At(g, d, y, x) == 0)
  }

  lemma DrawnOne(g: Grid, d: nat, cs: seq<int>, s: set<Cell>, y: int, x: int, m: bv8)
    requires Drawn(g, d, cs, s) && Inside(d, y, x)
    requires IsFunc(m) && !IsData(m) && IsBlack(m) == PatternIsBlack(d, cs, y, x)
    ensures Drawn(Put(g, d, y, x, m), d, cs, s + {(y, x)})
  {
    hide IsFunc, IsData, IsBlack, Put, At, PatternIsBlack;
    var h := Put(g, d, y, x, m);
    forall v, u | Inside(d, v, u)
      ensures if (v, u) in s + {(y, x)} then
                IsFunc(At(h, d, v, u)) && !IsData(At(h, d, v, u)) && IsBlack(At(h, d, v, u)) == PatternIsBlack(d, cs, v, u)
              else At(h, d, v, u) == 0
    {
      PutAt(g, d, y, x, m, v, u);
    }
  }

  /** Writes a function module, and keeps account of it. */
  method Mark(symbol: array<bv8>, d: nat, y: int, x: int, black: bool, ghost cs: seq<int>, ghost s: set<Cell>)
    returns (ghost s': set<Cell>)
    requires Drawn(symbol[..], d, cs, s) && Inside(d, y, x) && black == PatternIsBlack(d, cs, y, x)
    modifies symbol
    ensures s' == s + {(y, x)} && Drawn(symbol[..], d, cs, s')
  {
    var m := if black then FUNC_BLACK else FUNC;
    assert IsFunc(m) && !IsData(m) && IsBlack(m) == black;
    hide IsFunc, IsData, IsBlack, PatternIsBlack;
    DrawnOne(symbol[..], d, cs, s, y, x, m);
    IndexInside(d, y, x);
    ghost var after := Put(symbol[..], d, y, x, m);
    symbol[y * d + x] := m;
    assert symbol[..] == after;
    s' := s + {(y, x)};
  }

  lemma EmptyModule()
    ensures !IsFunc(0) && !IsData(0) && !IsBlack(0)
  {
  }

  /** Makes a module a function module without touching its colour. */
  method Reserve(symbol: array<bv8>, d: nat, y: int, x: int, ghost cs: seq<int>, ghost s: set<Cell>)
    returns (ghost s': set<Cell>)
    requires Drawn(symbol[..], d, cs, s) && Inside(d, y, x) && !PatternIsBlack(d, cs, y, x)
    modifies symbol
    ensures s' == s + {(y, x)} && Drawn(symbol[..], d, cs, s')
  {
    IndexInside(d, y, x);
    EmptyModule();
    var m := SetFunc(symbol[y * d + x]);
    assert m == SetFunc(At(symbol[..], d, y, x));
    hide IsFunc, IsData, IsBlack, SetFunc, PatternIsBlack;
    DrawnOne(symbol[..], d, cs, s, y, x, m);
    ghost var after := Put(symbol[..], d, y, x, m);
    symbol[y * d + x] := m;
    assert symbol[..] == after;
    s' := s + {(y, x)};
  }

  // ---- Finder patterns and separators ----

  predicate InFinders(d: nat, i: int, j: int, y: int, x: int) {
    || (0 <= y && 0 <= x < 7 && (y < i || (y == i && x < j)))
    || (0 <= y && d - 7 <= x < d && (y < i || (y == i && d - 1 - x < j)))
    || (y < d && 0 <= x < 7 && (d - 1 - y < i || (d - 1 - y == i && x < j)))
  }

  method DrawFinders(symbol: array<bv8>, d: nat, ghost cs: seq<int>, ghost s: set<Cell>) returns (ghost s': set<Cell>)
    requires d >= 21 && Spaced(cs, d) && Drawn(symbol[..], d, cs, s)
    modifies symbol
    ensures Drawn(symbol[..], d, cs, s')
    ensures forall y, x :: (y, x) in s' <==> (y, x) in s || InFinders(d, 7, 0, y, x)
  {
    hide Drawn, PatternIsBlack, Spaced;
    s' := s;
    for i := 0 to 7
      invariant Drawn(symbol[..], d, cs, s')
      invariant forall y, x :: (y, x) in s' <==> (y, x) in s || InFinders(d, i, 0, y, x)
    {
      for j := 0 to 7
        invariant Drawn(symbol[..], d, cs, s')
        invariant forall y, x :: (y, x) in s' <==> (y, x) in s || InFinders(d, i, j, y, x)
      {
        var black := FinderIsBlack(i, j);
        FinderColours(d, cs, i, j);
        s' := Mark(symbol, d, i, j, black, cs, s');
        s' := Mark(symbol, d, i, d - 1 - j, black, cs, s');
        s' := Mark(symbol, d, d - 1 - i, j, black, cs, s');
      }
    }
  }

  predicate InSeparators(d: nat, n: int, y: int, x: int) {
    || (x == 7 && (0 <= y < n || d - n <= y < d))
    || (y == 7 && (0 <= x < n || d - n <= x < d))
    || (x == d - 8 && 0 <= y < n)
    || (y == d - 8 && 0 <= x < n)
  }

  method DrawSeparators(symbol: array<bv8>, d: nat, ghost cs: seq<int>, ghost s: set<Cell>) returns (ghost s': set<Cell>)
    requires d >= 21 && d % 4 == 1 && Spaced(cs, d) && Drawn(symbol[..], d, cs, s)
    modifies symbol
    ensures Drawn(symbol[..], d, cs, s')
    ensures forall y, x :: (y, x) in s' <==> (y, x) in s || InSeparators(d, 8, y, x)
  {
    hide Drawn, PatternIsBlack, Spaced;
    s' := s;
    for i := 0 to 8
      invariant Drawn(symbol[..], d, cs, s')
      invariant forall y, x :: (y, x) in s' <==> (y, x) in s || InSeparators(d, i, y, x)
    {
      SeparatorColours(d, cs, i);
      s' := Mark(symbol, d, i, 7, false, cs, s');
      s' := Mark(symbol, d, 7, i, false, cs, s');
      s' := Mark(symbol, d, i, d - 8, false, cs, s');
      s' := Mark(symbol, d, d - 8, i, false, cs, s');
      s' := Mark(symbol, d, d - 1 - i, 7, false, cs, s');
      s' := Mark(symbol, d, 7, d - 1 - i, false, cs, s');
    }
  }

  // ---- Alignment patterns ----

  /** Cells of the alignment patterns before (i, j), timing patterns included. */
  predicate InAlignmentsBefore(cs: seq<int>, i: int, j: int, y: int, x: int) {
    exists k, l :: 0 <= k < |cs| && 0 <= l < |cs| && (k < i || (k == i && l < j))
                   && IsPlaced(|cs|, k, l) && Near(y, cs[k]) && Near(x, cs[l])
  }

  method DrawOneAlignment(symbol: array<bv8>, d: nat, y0: int, x0: int, ghost cs: seq<int>, ghost i: nat, ghost j: nat,
                          ghost s: set<Cell>)
    returns (ghost s': set<Cell>)
    requires d >= 21 && Spaced(cs, d) && Drawn(symbol[..], d, cs, s) && 0 <= y0 <= d - 5 && 0 <= x0 <= d - 5
    requires i < |cs| && j < |cs| && IsPlaced(|cs|, i, j) && y0 == cs[i] - 2 && x0 == cs[j] - 2
    modifies symbol
    ensures Drawn(symbol[..], d, cs, s')
    ensures forall y, x :: (y, x) in s' <==> (y, x) in s || (y0 <= y < y0 + 5 && x0 <= x < x0 + 5)
  {
    hide Drawn, PatternIsBlack, Spaced;
    s' := s;
    for y := 0 to 5
      invariant Drawn(symbol[..], d, cs, s')
      invariant forall v, u :: (v, u) in s' <==> (v, u) in s || (y0 <= v < y0 + y && x0 <= u < x0 + 5)
    {
      for x := 0 to 5
        invariant Drawn(symbol[..], d, cs, s')
        invariant forall v, u :: (v, u) in s' <==>
          (v, u) in s || (y0 <= v < y0 + y && x0 <= u < x0 + 5) || (v == y0 + y && x0 <= u < x0 + x)
      {
        AlignmentColour(d, cs, i, j, y0 + y, x0 + x);
        var black := AlignmentIsBlack(y, x);
        s' := Mark(symbol, d, y0 + y, x0 + x, black, cs, s');
      }
    }
  }

  predicate InSquares(d: nat, y: int, x: int) {
    InFinders(d, 7, 0, y, x) || InSeparators(d, 8, y, x)
  }

  lemma CentreTaken(cs: seq<int>, d: nat, i: nat, j: nat)
    requires d >= 21 && Spaced(cs, d) && i < |cs| && j < |cs|
    ensures 2 <= cs[i] <= d - 3 && 2 <= cs[j] <= d - 3
    ensures InSquares(d, cs[i], cs[j]) || InAlignmentsBefore(cs, i, j, cs[i], cs[j]) <==> !IsPlaced(|cs|, i, j)
  {
    if i > 0 { SpacedApart(cs, d, 0, i); }
    if j > 0 { SpacedApart(cs, d, 0, j); }
    if i < |cs| - 1 { SpacedApart(cs, d, i, |cs| - 1); }
    if j < |cs| - 1 { SpacedApart(cs, d, j, |cs| - 1); }
    if InAlignmentsBefore(cs, i, j, cs[i], cs[j]) {
      var k, l :| 0 <= k < |cs| && 0 <= l < |cs| && (k < i || (k == i && l < j))
                  && IsPlaced(|cs|, k, l) && Near(cs[i], cs[k]) && Near(cs[j], cs[l]);
      if k < i { SpacedApart(cs, d, k, i); } else { SpacedApart(cs, d, l, j); }
    }
  }

  method DrawAlignments(symbol: array<bv8>, d: nat, cs: seq<int>, ghost s: set<Cell>) returns (ghost s': set<Cell>)
    requires d >= 21 && Spaced(cs, d) && Drawn(symbol[..], d, cs, s)
    requires forall y, x :: (y, x) in s <==> InSquares(d, y, x)
    modifies symbol
    ensures Drawn(symbol[..], d, cs, s')
    ensures forall y, x :: (y, x) in s' <==> (y, x) in s || InAlignment(cs, y, x)
  {
    hide Drawn, IsFunc, InSquares, Spaced;
    s' := s;
    var n := |cs|;
    for i := 0 to n
      invariant Drawn(symbol[..], d, cs, s')
      invariant forall y, x :: (y, x) in s' <==> (y, x) in s || InAlignmentsBefore(cs, i, 0, y, x)
    {
      for j := 0 to n
        invariant Drawn(symbol[..], d, cs, s')
        invariant forall y, x :: (y, x) in s' <==> (y, x) in s || InAlignmentsBefore(cs, i, j, y, x)
      {
        CentreTaken(cs, d, i, j);
        DrawnAt(symbol[..], d, cs, s', cs[i], cs[j]);
        var taken := IsFunc(symbol[cs[i] * d + cs[j]]);
        if !taken {
          s' := DrawOneAlignment(symbol, d, cs[i] - 2, cs[j] - 2, cs, i, j, s');
        }
        forall y, x ensures (y, x) in s' <==> (y, x) in s || InAlignmentsBefore(cs, i, j + 1, y, x) {
          NextAlignment(cs, i, j, y, x);
          hide InAlignmentsBefore;
        }
      }
    }
  }

  lemma DrawnAt(g: Grid, d: nat, cs: seq<int>, s: set<Cell>, y: int, x: int)
    requires Drawn(g, d, cs, s) && Inside(d, y, x)
    ensures 0 <= Index(d, y, x) < |g| && IsFunc(g[Index(d, y, x)]) == ((y, x) in s)
  {
    EmptyModule();
    hide IsFunc, IsData, IsBlack, PatternIsBlack;
    IndexInside(d, y, x);
    assert g[Index(d, y, x)] == At(g, d, y, x);
  }

  lemma NextAlignment(cs: seq<int>, i: nat, j: nat, y: int, x: int)
    requires i < |cs| && j < |cs|
    ensures InAlignmentsBefore(cs, i, j + 1, y, x) <==>
            InAlignmentsBefore(cs, i, j, y, x) || (IsPlaced(|cs|, i, j) && Near(y, cs[i]) && Near(x, cs[j]))
    ensures j + 1 == |cs| ==> (InAlignmentsBefore(cs, i, j + 1, y, x) <==> InAlignmentsBefore(cs, i + 1, 0, y, x))
  {
  }

  // ---- Timing patterns, format and version information ----

  predicate InTimingDrawn(d: nat, n: int, y: int, x: int) {
    (x == TIMING && 7 <= y < n) || (y == TIMING && 7 <= x < n)
  }

  method DrawTiming(symbol: array<bv8>, d: nat, ghost cs: seq<int>, ghost s: set<Cell>) returns (ghost s': set<Cell>)
    requires AllEven(cs)
    requires d >= 21 && Spaced(cs, d) && Drawn(symbol[..], d, cs, s)
    modifies symbol
    ensures Drawn(symbol[..], d, cs, s')
    ensures forall y, x :: (y, x) in s' <==> (y, x) in s || InTimingDrawn(d, d - 8, y, x)
  {
    hide Drawn, PatternIsBlack, Spaced;
    s' := s;
    for i := 7 to d - 8
      invariant Drawn(symbol[..], d, cs, s')
      invariant forall y, x :: (y, x) in s' <==> (y, x) in s || InTimingDrawn(d, i, y, x)
    {
      var black := i % 2 == 0;
      TimingThroughAlignment(d, cs, i, TIMING);
      TimingThroughAlignment(d, cs, TIMING, i);
      s' := Mark(symbol, d, i, TIMING, black, cs, s');
      s' := Mark(symbol, d, TIMING, i, black, cs, s');
    }
  }

  /** Places of format bit j, first and second copy, low bit first; the timing patterns are stepped over. */
  function FormatCell(d: nat, copy: nat, j: nat): Cell {
    if copy == 0 then
      (if j < 6 then (j, 8) else if j < 8 then (j + 1, 8) else (d - 15 + j, 8))
    else
      (if j < 8 then (8, d - 1 - j) else if j == 8 then (8, 7) else (8, 14 - j))
  }

  /** Places of version bit j. */
  function VersionCell(d: nat, copy: nat, j: nat): Cell {
    if copy == 0 then (d - 11 + j % 3, j / 3) else (j / 3, d - 11 + j % 3)
  }

  /**
   The first copy runs down column 8 from the upper edge to the lower, the second along row 8 from the right edge to the
   left, each one past the dark module and the timing pattern.
   */
  lemma FormatCellsRun(d: nat, copy: nat, j: nat)
    requires d >= 21 && copy < 2 && j < 15
    ensures var c := FormatCell(d, copy, j);
            if copy == 0 then
              && c.1 == 8 && c.0 != TIMING && (c.0 <= 8 || c.0 >= d - 7) && (j == 0 ==> c.0 == 0) && (j == 14 ==> c.0 == d - 1)
              && (j < 14 ==> c.0 < FormatCell(d, copy, j + 1).0)
            else
              && c.0 == 8 && c.1 != TIMING && (c.1 < 8 || c.1 >= d - 8) && (j == 0 ==> c.1 == d - 1) && (j == 14 ==> c.1 == 0)
              && (j < 14 ==> c.1 > FormatCell(d, copy, j + 1).1)
  {
  }

  /** The version is printed in three columns of six from the top, and once more with rows and columns exchanged. */
  lemma VersionCellsRun(d: nat, j: nat)
    requires d >= 21 && j < 18
    ensures var c := VersionCell(d, 1, j);
            && VersionCell(d, 0, j) == (c.1, c.0) && 0 <= c.0 < 6 && d - 11 <= c.1 < d - 8 && 3 * c.0 + (c.1 - (d - 11)) == j
  {
  }

  method ReserveFormat(symbol: array<bv8>, d: nat, ghost cs: seq<int>, ghost s: set<Cell>) returns (ghost s': set<Cell>)
    requires d >= 21 && Spaced(cs, d) && Drawn(symbol[..], d, cs, s)
    modifies symbol
    ensures Drawn(symbol[..], d, cs, s')
    ensures forall y, x :: (y, x) in s' <==>
              ((y, x) in s || (y == d - 8 && x == 8) || exists c, j :: 0 <= c < 2 && 0 <= j < 15 && FormatCell(d, c, j) == (y, x))
  {
    hide Drawn, PatternIsBlack, Spaced;
    s' := s;
    for i := 0 to 2
      invariant Drawn(symbol[..], d, cs, s')
      invariant forall y, x :: (y, x) in s' <==>
        ((y, x) in s || exists c, j :: 0 <= c < i && 0 <= j < 15 && FormatCell(d, c, j) == (y, x))
    {
      for j := 0 to 15
        invariant Drawn(symbol[..], d, cs, s')
        invariant forall y, x :: (y, x) in s' <==>
          ((y, x) in s
           || (exists c, k :: 0 <= c < i && 0 <= k < 15 && FormatCell(d, c, k) == (y, x))
           || (exists k :: 0 <= k < j && FormatCell(d, i, k) == (y, x)))
      {
        var (ypos, xpos) := FormatCell(d, i, j);
        CornerColour(d, cs, ypos, xpos);
        s' := Reserve(symbol, d, ypos, xpos, cs, s');
      }
    }
    CornerColour(d, cs, d - 8, 8);
    s' := Reserve(symbol, d, d - 8, 8, cs, s');
  }

  method ReserveVersion(symbol: array<bv8>, d: nat, ghost cs: seq<int>, ghost s: set<Cell>) returns (ghost s': set<Cell>)
    requires d >= 21 && Spaced(cs, d) && Drawn(symbol[..], d, cs, s)
    modifies symbol
    ensures Drawn(symbol[..], d, cs, s')
    ensures forall y, x :: (y, x) in s' <==>
              ((y, x) in s || exists c, j :: 0 <= c < 2 && 0 <= j < 18 && VersionCell(d, c, j) == (y, x))
  {
    hide Drawn, PatternIsBlack, Spaced;
    s' := s;
    for i := 0 to 2
      invariant Drawn(symbol[..], d, cs, s')
      invariant forall y, x :: (y, x) in s' <==>
        ((y, x) in s || exists c, j :: 0 <= c < i && 0 <= j < 18 && VersionCell(d, c, j) == (y, x))
    {
      for j := 0 to 18
        invariant Drawn(symbol[..], d, cs, s')
        invariant forall y, x :: (y, x) in s' <==>
          ((y, x) in s
           || (exists c, k :: 0 <= c < i && 0 <= k < 18 && VersionCell(d, c, k) == (y, x))
           || (exists k :: 0 <= k < j && VersionCell(d, i, k) == (y, x)))
      {
        var (ypos, xpos) := VersionCell(d, i, j);
        CornerColour(d, cs, ypos, xpos);
        s' := Reserve(symbol, d, ypos, xpos, cs, s');
      }
    }
  }

  // ---- All together ----

  predicate InFormat(d: nat, y: int, x: int) {
    || (x == 8 && (0 <= y <= 5 || 7 <= y <= 8 || d - 7 <= y < d))
    || (y == 8 && (0 <= x <= 5 || x == 7 || d - 8 <= x < d))
  }

  lemma FormatCells(d: nat, y: int, x: int)
    requires d >= 21
    ensures (exists c, j :: 0 <= c < 2 && 0 <= j < 15 && FormatCell(d, c, j) == (y, x)) <==> InFormat(d, y, x)
  {
    if InFormat(d, y, x) {
      if x == 8 && y != 8 {
        assert FormatCell(d, 0, if y <= 5 then y else if y <= 8 then y - 1 else y - d + 15) == (y, x);
      } else if y == 8 && x == 8 {
        assert FormatCell(d, 0, 7) == (y, x);
      } else {
        assert FormatCell(d, 1, if x <= 5 then 14 - x else if x == 7 then 8 else d - 1 - x) == (y, x);
      }
    }
  }

  lemma VersionInfoCells(d: nat, y: int, x: int)
    requires d >= 21
    ensures (exists c, j :: 0 <= c < 2 && 0 <= j < 18 && VersionCell(d, c, j) == (y, x)) <==>
            InVersionInfo(7, d, y, x) && y >= 0 && x >= 0
  {
    if InVersionInfo(7, d, y, x) && y >= 0 && x >= 0 {
      if x < 6 && d - 11 <= y < d - 8 {
        assert VersionCell(d, 0, 3 * x + (y - (d - 11))) == (y, x);
      } else {
        assert VersionCell(d, 1, 3 * y + (x - (d - 11))) == (y, x);
      }
    }
  }

  /** The parts cover the corners and timing patterns without a gap. */
  lemma PartsCover(d: nat, y: int, x: int)
    requires d >= 21 && Inside(d, y, x)
    ensures InSquares(d, y, x) || InTimingDrawn(d, d - 8, y, x) || InFormat(d, y, x) || (y == d - 8 && x == 8) <==>
            InCorner(d, y, x) || InTiming(y, x)
  {
  }

  /** What a fresh symbol of version v holds: the function pattern, in its colours, and nothing else. */
  ghost predicate HasPattern(g: Grid, v: int)
    requires IsVersion(v)
  {
    && IsGrid(g, Dimension(v))
    && forall y, x :: Inside(Dimension(v), y, x) ==>
      var m := At(g, Dimension(v), y, x);
      && IsFunc(m) == IsFunctionModule(v, y, x) && !IsData(m)
      && IsBlack(m) == (IsFunctionModule(v, y, x) && PatternIsBlack(Dimension(v), AlignmentCentres(v), y, x))
  }

  /** Draws the function pattern of version v into a fresh symbol. */
  method FillFunctionPattern(v: int) returns (symbol: array<bv8>)
    requires IsVersion(v)
    ensures fresh(symbol) && symbol.Length == Dimension(v) * Dimension(v)
    ensures HasPattern(symbol[..], v)
  {
    var d := Dimension(v);
    var cs := AlignmentCentres(v);
    symbol := new bv8[d * d](_ => 0);
    EmptyGrid(symbol[..], d, cs);
    CapacitiesExact(v);
    CentresEven(v);
    hide Drawn, AllEven, AlignmentCentres, TotalWords, RemainderBits, InFinders, InSeparators, InAlignment, InTimingDrawn,
         FormatCell, VersionCell, Dimension, Spaced;
    ghost var s := DrawFinders(symbol, d, cs, {});
    s := DrawSeparators(symbol, d, cs, s);
    s := DrawAlignments(symbol, d, cs, s);
    s := DrawTiming(symbol, d, cs, s);
    s := ReserveFormat(symbol, d, cs, s);
    if v >= 7 {
      s := ReserveVersion(symbol, d, cs, s);
    }
    forall y, x | Inside(d, y, x) ensures (y, x) in s <==> IsFunctionModule(v, y, x) {
      FormatCells(d, y, x);
      VersionInfoCells(d, y, x);
      PartsCover(d, y, x);
      hide InCorner, InTiming, InFormat;
    }
    DrawnPattern(symbol[..], v, s);
  }

  lemma EmptyGrid(g: Grid, d: nat, cs: seq<int>)
    requires IsGrid(g, d) && forall i :: 0 <= i < |g| ==> g[i] == 0
    ensures Drawn(g, d, cs, {})
  {
    forall y, x | Inside(d, y, x) ensures At(g, d, y, x) == 0 {
      IndexInside(d, y, x);
    }
  }

  lemma DrawnPattern(g: Grid, v: int, s: set<Cell>)
    requires IsVersion(v) && Drawn(g, Dimension(v), AlignmentCentres(v), s)
    requires forall y, x :: Inside(Dimension(v), y, x) ==> ((y, x) in s <==> IsFunctionModule(v, y, x))
    ensures HasPattern(g, v)
  {
    EmptyModule();
    hide IsFunc, IsData, IsBlack, IsFunctionModule, AlignmentCentres, PatternIsBlack;
  }

  lemma PatternIsFunctionPattern(g: Grid, v: int)
    requires IsVersion(v) && HasPattern(g, v)
    ensures HasFunctionPattern(g, v) && NoData(g)
  {
    hide IsFunc, IsData, IsBlack, IsFunctionModule, PatternIsBlack;
    forall k | 0 <= k < |g| ensures !IsData(g[k]) {
      var y, x := CellOfIndex(Dimension(v), k);
      assert !IsData(At(g, Dimension(v), y, x));
    }
  }
}
