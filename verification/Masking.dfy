/**
 Data masking (ISO/IEC 18004:2015, section 7.8): a trial mask rewrites the printed colour of every free module from
 its data flag, so that no trial leaves a trace in the next, and a reader can take the mask off again.
 */
module Masking {
  import opened Arithmetic
  import opened Modules

  const MASKS := 8

  /** Whether mask `mask` flips the module in row i, column j. */
  predicate Flips(mask: nat, i: nat, j: nat)
    requires mask < MASKS
  {
    match mask
    case 0 => (i + j) % 2 == 0
    case 1 => i % 2 == 0
    case 2 => j % 3 == 0
    case 3 => (i + j) % 3 == 0
    case 4 => (i / 2 + j / 3) % 2 == 0
    case 5 => (i * j) % 2 + (i * j) % 3 == 0
    case 6 => ((i * j) % 2 + (i * j) % 3) % 2 == 0
    case 7 => ((i * j) % 3 + (i + j) % 2) % 2 == 0
  }

  /** The printed colour of a free module before the mask: its data. */
  function Unmasked(m: bv8): (r: bv8)
    ensures IsData(r) == IsData(m) && IsFunc(r) == IsFunc(m)
    ensures IsBlack(r) == if IsFunc(m) then IsBlack(m) else IsData(m)
  {
    if IsFunc(m) then m else if IsData(m) then SetBlack(m) else ClearBlack(m)
  }

  function MaskedModule(m: bv8, flip: bool): (r: bv8)
    ensures IsData(r) == IsData(m) && IsFunc(r) == IsFunc(m)
    ensures IsBlack(r) == if IsFunc(m) then IsBlack(m) else IsData(m) != flip
    ensures IsFunc(m) ==> r == m
  {
    if IsFunc(m) || !flip then Unmasked(m) else FlipBlack(Unmasked(m))
  }

  lemma MaskedTwice(m: bv8, first: bool, second: bool)
    ensures MaskedModule(MaskedModule(m, first), second) == MaskedModule(m, second)
  {
    var a := MaskedModule(m, first);
    assert ClearBlack(m | 2) == ClearBlack(m) && (m & !2) | 2 == m | 2;
    assert ClearBlack(m) ^ 2 == SetBlack(m) && SetBlack(m) ^ 2 == ClearBlack(m);
    assert ClearBlack(ClearBlack(m)) == ClearBlack(m) && SetBlack(SetBlack(m)) == SetBlack(m);
    if IsData(m) {
      assert SetBlack(a) == SetBlack(m);
    } else {
      assert IsFunc(m) || ClearBlack(a) == ClearBlack(m);
    }
  }

  // ---- The patterns ----

  // Each mask repeats one tile; `#` flips.

  const TILE0: seq<string> := ["#.", ".#"]
  const TILE1: seq<string> := ["#", "."]
  const TILE2: seq<string> := ["#.."]
  const TILE3: seq<string> := ["#..", "..#", ".#."]
  const TILE4: seq<string> := ["###...", "###...", "...###", "...###"]
  const TILE5: seq<string> := ["######", "#.....", "#..#..", "#.#.#.", "#..#..", "#....."]
  const TILE6: seq<string> := ["######", "###...", "##.##.", "#.#.#.", "#.##.#", "#...##"]
  const TILE7: seq<string> := ["#.#.#.", "...###", "#...##", ".#.#.#", "###...", ".###.."]

  function Tile(mask: nat): (tile: seq<string>)
    requires mask < MASKS
    ensures |tile| > 0 && |tile[0]| > 0
  {
    match mask
    case 0 => TILE0
    case 1 => TILE1
    case 2 => TILE2
    case 3 => TILE3
    case 4 => TILE4
    case 5 => TILE5
    case 6 => TILE6
    case 7 => TILE7
  }

  /** Row i and column j of the tile, over and over. */
  predicate Tiled(tile: seq<string>, i: nat, j: nat)
    requires |tile| > 0
  {
    var row := tile[i % |tile|];
    |row| > 0 && row[j % |row|] == '#'
  }

  /** What modules a mask flips, for every one of them and every place. */
  lemma MaskTiles(mask: nat, i: nat, j: nat)
    requires mask < MASKS
    ensures Flips(mask, i, j) <==> Tiled(Tile(mask), i, j)
  {
    TileSizes(mask);
    hide *;
    var h, w := |Tile(mask)|, |Tile(mask)[0]|;
    TiledIs(Tile(mask), h, w, i, j);
    Division(i, h);
    Division(j, w);
    Repeats(mask, h, w, i / h, i % h, j / w, j % w);
    InTile(mask, h, w, i % h, j % w);
  }

  predicate AreSizes(mask: nat, h: nat, w: nat)
  {
    match mask
    case 0 => h == 2 && w == 2
    case 1 => h == 2 && w == 1
    case 2 => h == 1 && w == 3
    case 3 => h == 3 && w == 3
    case 4 => h == 4 && w == 6
    case _ => h == 6 && w == 6
  }

  lemma TileSizes(mask: nat)
    requires mask < MASKS
    ensures AreSizes(mask, |Tile(mask)|, |Tile(mask)[0]|)
    ensures forall k :: 0 <= k < |Tile(mask)| ==> |Tile(mask)[k]| == |Tile(mask)[0]|
  {
  }

  lemma TiledIs(tile: seq<string>, h: nat, w: nat, i: nat, j: nat)
    requires |tile| == h > 0 && w > 0 && forall k :: 0 <= k < h ==> |tile[k]| == w
    ensures i % h < h && j % w < w && (Tiled(tile, i, j) <==> tile[i % h][j % w] == '#')
  {
  }

  /** The conditions repeat with the size of the tile. */
  lemma Repeats(mask: nat, h: nat, w: nat, a: nat, r: nat, b: nat, s: nat)
    requires mask < MASKS && AreSizes(mask, h, w)
    ensures Flips(mask, h * a + r, w * b + s) <==> Flips(mask, r, s)
  {
    if mask == 0 {
      RemainderPlus(2, a + b, r + s);
    } else if mask == 1 {
      RemainderPlus(2, a, r);
    } else if mask == 2 {
      RemainderPlus(3, b, s);
    } else if mask == 3 {
      RemainderPlus(3, a + b, r + s);
    } else if mask == 4 {
      assert (4 * a + r) / 2 == 2 * a + r / 2 && (6 * b + s) / 3 == 2 * b + s / 3;
      RemainderPlus(2, a + b, r / 2 + s / 3);
    } else {
      SixTimes(a, r, b, s);
      SixOff(6 * a * b + a * s + r * b, r * s);
      SixOff(a + b, r + s);
    }
  }

  lemma SixTimes(a: nat, r: nat, b: nat, s: nat)
    ensures (6 * a + r) * (6 * b + s) == 6 * (6 * a * b + a * s + r * b) + r * s
  {
    assert (6 * a + r) * (6 * b + s) == (6 * a) * (6 * b) + (6 * a) * s + r * (6 * b) + r * s;
    assert (6 * a) * (6 * b) == 6 * (6 * a * b) && (6 * a) * s == 6 * (a * s) && r * (6 * b) == 6 * (r * b);
  }

  lemma SixOff(k: nat, p: nat)
    ensures (6 * k + p) % 2 == p % 2 && (6 * k + p) % 3 == p % 3
  {
    RemainderPlus(2, 3 * k, p);
    RemainderPlus(3, 2 * k, p);
  }

  lemma InTile(mask: nat, h: nat, w: nat, r: nat, s: nat)
    requires mask < MASKS && AreSizes(mask, h, w) && r < h && s < w
    ensures |Tile(mask)| == h && |Tile(mask)[r]| == w && (Flips(mask, r, s) <==> Tile(mask)[r][s] == '#')
  {
    hide Flips;
    match mask
    case 0 => InTile0(r, s);
    case 1 => InTile1(r, s);
    case 2 => InTile2(r, s);
    case 3 => InTile3(r, s);
    case 4 => InTile4(r, s);
    case 5 => InTile5(r, s);
    case 6 => InTile6(r, s);
    case 7 => InTile7(r, s);
  }

  lemma InTile0(r: nat, s: nat)
    requires r < 2 && s < 2
    ensures |TILE0[r]| == 2 && (Flips(0, r, s) <==> TILE0[r][s] == '#')
  {
    if r == 0 {} else {}
  }

  lemma InTile1(r: nat, s: nat)
    requires r < 2 && s < 1
    ensures |TILE1[r]| == 1 && (Flips(1, r, s) <==> TILE1[r][s] == '#')
  {
    if r == 0 {} else {}
  }

  lemma InTile2(r: nat, s: nat)
    requires r < 1 && s < 3
    ensures |TILE2[r]| == 3 && (Flips(2, r, s) <==> TILE2[r][s] == '#')
  {
  }

  lemma InTile3(r: nat, s: nat)
    requires r < 3 && s < 3
    ensures |TILE3[r]| == 3 && (Flips(3, r, s) <==> TILE3[r][s] == '#')
  {
    if r == 0 {} else if r == 1 {} else {}
  }

  lemma InTile4(r: nat, s: nat)
    requires r < 4 && s < 6
    ensures |TILE4[r]| == 6 && (Flips(4, r, s) <==> TILE4[r][s] == '#')
  {
    if r == 0 {} else if r == 1 {} else if r == 2 {} else {}
  }

  lemma InTile5(r: nat, s: nat)
    requires r < 6 && s < 6
    ensures |TILE5[r]| == 6 && (Flips(5, r, s) <==> TILE5[r][s] == '#')
  {
    if r == 0 {
      if s == 0 {} else if s == 1 {} else if s == 2 {} else if s == 3 {} else if s == 4 {} else {}
    } else if r == 1 {
      if s == 0 {} else if s == 1 {} else if s == 2 {} else if s == 3 {} else if s == 4 {} else {}
    } else if r == 2 {
      if s == 0 {} else if s == 1 {} else if s == 2 {} else if s == 3 {} else if s == 4 {} else {}
    } else if r == 3 {
      if s == 0 {} else if s == 1 {} else if s == 2 {} else if s == 3 {} else if s == 4 {} else {}
    } else if r == 4 {
      if s == 0 {} else if s == 1 {} else if s == 2 {} else if s == 3 {} else if s == 4 {} else {}
    } else {
      if s == 0 {} else if s == 1 {} else if s == 2 {} else if s == 3 {} else if s == 4 {} else {}
    }
  }

  lemma Mask6BySix(r: nat, s: nat)
    ensures Flips(6, r, s) <==> (r * s) % 6 <= 2
  {
    SixOff((r * s) / 6, (r * s) % 6);
    var u := (r * s) % 6;
    if u == 0 {} else if u == 1 {} else if u == 2 {} else if u == 3 {} else if u == 4 {} else {}
  }

  lemma InTile6(r: nat, s: nat)
    requires r < 6 && s < 6
    ensures |TILE6[r]| == 6 && (Flips(6, r, s) <==> TILE6[r][s] == '#')
  {
    Mask6BySix(r, s);
    hide Flips;
    if r == 0 {
      if s == 0 {} else if s == 1 {} else if s == 2 {} else if s == 3 {} else if s == 4 {} else {}
    } else if r == 1 {
      if s == 0 {} else if s == 1 {} else if s == 2 {} else if s == 3 {} else if s == 4 {} else {}
    } else if r == 2 {
      if s == 0 {} else if s == 1 {} else if s == 2 {} else if s == 3 {} else if s == 4 {} else {}
    } else if r == 3 {
      if s == 0 {} else if s == 1 {} else if s == 2 {} else if s == 3 {} else if s == 4 {} else {}
    } else if r == 4 {
      if s == 0 {} else if s == 1 {} else if s == 2 {} else if s == 3 {} else if s == 4 {} else {}
    } else {
      if s == 0 {} else if s == 1 {} else if s == 2 {} else if s == 3 {} else if s == 4 {} else {}
    }
  }

  lemma InTile7(r: nat, s: nat)
    requires r < 6 && s < 6
    ensures |TILE7[r]| == 6 && (Flips(7, r, s) <==> TILE7[r][s] == '#')
  {
    if r == 0 {
      if s == 0 {} else if s == 1 {} else if s == 2 {} else if s == 3 {} else if s == 4 {} else {}
    } else if r == 1 {
      if s == 0 {} else if s == 1 {} else if s == 2 {} else if s == 3 {} else if s == 4 {} else {}
    } else if r == 2 {
      if s == 0 {} else if s == 1 {} else if s == 2 {} else if s == 3 {} else if s == 4 {} else {}
    } else if r == 3 {
      if s == 0 {} else if s == 1 {} else if s == 2 {} else if s == 3 {} else if s == 4 {} else {}
    } else if r == 4 {
      if s == 0 {} else if s == 1 {} else if s == 2 {} else if s == 3 {} else if s == 4 {} else {}
    } else {
      if s == 0 {} else if s == 1 {} else if s == 2 {} else if s == 3 {} else if s == 4 {} else {}
    }
  }

  /** Flips at cell k of the flat symbol. */
  predicate FlipsCell(mask: nat, dim: nat, k: nat)
    requires mask < MASKS && dim > 0
  {
    Flips(mask, k / dim, k % dim)
  }

  function MaskedGrid(g: Grid, dim: nat, mask: nat): (h: Grid)
    requires dim > 0 && IsGrid(g, dim) && mask < MASKS
    ensures IsGrid(h, dim) && forall k :: 0 <= k < |h| ==> h[k] == MaskedModule(g[k], FlipsCell(mask, dim, k))
  {
    seq(|g|, k requires 0 <= k < |g| => MaskedModule(g[k], FlipsCell(mask, dim, k)))
  }

  lemma IndexDivMod(dim: nat, y: int, x: int)
    requires Inside(dim, y, x)
    ensures Index(dim, y, x) / dim == y && Index(dim, y, x) % dim == x
  {
    var i := Index(dim, y, x);
    IndexInside(dim, y, x);
    var q, r := i / dim, i % dim;
    Division(i, dim);
    SameQuotient(dim, y, x, q, r);
  }

  lemma MaskedGridAt(g: Grid, dim: nat, mask: nat, y: int, x: int)
    requires IsGrid(g, dim) && mask < MASKS && Inside(dim, y, x)
    ensures At(MaskedGrid(g, dim, mask), dim, y, x) == MaskedModule(At(g, dim, y, x), Flips(mask, y, x))
  {
    IndexInside(dim, y, x);
    IndexDivMod(dim, y, x);
  }

  /** A trial leaves nothing behind: the next one gives what it would have given on the fresh symbol. */
  lemma TrialsIndependent(g: Grid, dim: nat, first: nat, second: nat)
    requires dim > 0 && IsGrid(g, dim) && first < MASKS && second < MASKS
    ensures MaskedGrid(MaskedGrid(g, dim, first), dim, second) == MaskedGrid(g, dim, second)
  {
    hide MaskedGrid, MaskedModule, FlipsCell, Flips;
    forall k | 0 <= k < |g|
      ensures MaskedGrid(MaskedGrid(g, dim, first), dim, second)[k] == MaskedGrid(g, dim, second)[k]
    {
      MaskedTwice(g[k], FlipsCell(first, dim, k), FlipsCell(second, dim, k));
    }
  }

  /** A reader that knows the mask recovers the data flag of every free module from its colour. */
  lemma MaskComesOff(g: Grid, dim: nat, mask: nat, y: int, x: int)
    requires IsGrid(g, dim) && mask < MASKS && Inside(dim, y, x)
    ensures var m := At(MaskedGrid(g, dim, mask), dim, y, x);
            && IsFunc(m) == IsFunc(At(g, dim, y, x))
            && (IsFunc(m) ==> m == At(g, dim, y, x))
            && (!IsFunc(m) ==> (IsBlack(m) != Flips(mask, y, x)) == IsData(At(g, dim, y, x)))
  {
    hide Flips, MaskedModule, IsFunc, IsBlack, IsData;
    MaskedGridAt(g, dim, mask, y, x);
  }

  /** The first n cells carry the mask, the others only their data colour. */
  ghost predicate MaskedUpTo(s: Grid, g: Grid, dim: nat, mask: nat, n: nat)
    requires dim > 0 && mask < MASKS
  {
    && |s| == |g| && n <= |g|
    && (forall k :: 0 <= k < n ==> s[k] == MaskedModule(g[k], FlipsCell(mask, dim, k)))
    && (forall k :: n <= k < |g| ==> s[k] == Unmasked(g[k]))
  }

  ghost predicate UnmaskedUpTo(s: Grid, g: Grid, n: nat) {
    && |s| == |g| && n <= |g|
    && (forall k :: 0 <= k < n ==> s[k] == Unmasked(g[k]))
    && (forall k :: n <= k < |g| ==> s[k] == g[k])
  }

  /** Function modules stay, and a free module is dark when its data say so, the other way round where the tile has a `#`. */
  ghost predicate ShowsTile(g: Grid, h: Grid, dim: nat, mask: nat)
    requires IsGrid(g, dim) && mask < MASKS
  {
    && IsGrid(h, dim)
    && forall y, x :: Inside(dim, y, x) ==>
         var m := At(g, dim, y, x);
         if IsFunc(m) then At(h, dim, y, x) == m
         else IsBlack(At(h, dim, y, x)) == (IsData(m) != Tiled(Tile(mask), y, x))
  }

  lemma MaskedShowsTile(g: Grid, dim: nat, mask: nat)
    requires dim > 0 && IsGrid(g, dim) && mask < MASKS
    ensures ShowsTile(g, MaskedGrid(g, dim, mask), dim, mask)
  {
    hide Flips, Tile, Tiled, IsFunc, IsBlack, IsData;
    forall y, x | Inside(dim, y, x)
      ensures var m := At(g, dim, y, x);
              if IsFunc(m) then At(MaskedGrid(g, dim, mask), dim, y, x) == m
              else IsBlack(At(MaskedGrid(g, dim, mask), dim, y, x)) == (IsData(m) != Tiled(Tile(mask), y, x))
    {
      MaskedGridAt(g, dim, mask, y, x);
      MaskTiles(mask, y, x);
    }
  }

  /** Rewrites the printed colours in place, first without and then with the mask. */
  method ApplyMask(symbol: array<bv8>, dim: nat, mask: nat)
    requires dim > 0 && symbol.Length == dim * dim && mask < MASKS
    modifies symbol
    ensures symbol[..] == MaskedGrid(old(symbol[..]), dim, mask) && ShowsTile(old(symbol[..]), symbol[..], dim, mask)
  {
    hide ShowsTile;
    ghost var g := symbol[..];
    MaskedShowsTile(g, dim, mask);
    for i := 0 to dim
      invariant UnmaskedUpTo(symbol[..], g, i * dim)
    {
      RowsApart(dim, i, dim);
      for j := 0 to dim
        invariant UnmaskedUpTo(symbol[..], g, i * dim + j)
      {
        UnmaskCell(symbol, i * dim + j, g);
      }
      assert i * dim + dim == (i + 1) * dim;
    }
    assert MaskedUpTo(symbol[..], g, dim, mask, 0);
    for i := 0 to dim
      invariant MaskedUpTo(symbol[..], g, dim, mask, i * dim)
    {
      RowsApart(dim, i, dim);
      for j := 0 to dim
        invariant MaskedUpTo(symbol[..], g, dim, mask, i * dim + j)
      {
        FlipCell(symbol, dim, mask, i, j, g);
      }
      assert i * dim + dim == (i + 1) * dim;
    }
  }

  method UnmaskCell(symbol: array<bv8>, k: nat, ghost g: Grid)
    requires k < symbol.Length && UnmaskedUpTo(symbol[..], g, k)
    modifies symbol
    ensures UnmaskedUpTo(symbol[..], g, k + 1)
  {
    hide IsFunc, IsData, IsBlack, SetBlack, ClearBlack;
    var m := symbol[k];
    assert m == symbol[..][k] == g[k];
    if !IsFunc(m) {
      symbol[k] := if IsData(m) then SetBlack(m) else ClearBlack(m);
    }
  }

  method FlipCell(symbol: array<bv8>, dim: nat, mask: nat, i: nat, j: nat, ghost g: Grid)
    requires i < dim && j < dim && mask < MASKS && i * dim + j < symbol.Length
    requires MaskedUpTo(symbol[..], g, dim, mask, i * dim + j)
    modifies symbol
    ensures MaskedUpTo(symbol[..], g, dim, mask, i * dim + j + 1)
  {
    IndexDivMod(dim, i, j);
    hide Flips, IsFunc, IsData, IsBlack, Unmasked, FlipBlack;
    ghost var k := i * dim + j;
    assert FlipsCell(mask, dim, k) == Flips(mask, i, j);
    var m := symbol[i * dim + j];
    assert m == symbol[..][k] == Unmasked(g[k]);
    if !IsFunc(m) && Flips(mask, i, j) {
      symbol[i * dim + j] := FlipBlack(m);
    }
    hide FlipsCell;
  }
}
