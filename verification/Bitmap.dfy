/** A finished symbol as a monochrome bitmap file: a header, then the lines from the bottom up, padded to four bytes. */
module Bitmaps {
  import opened Arithmetic
  import opened Bits
  import opened Modules

  const DIM_SEP := 4
  const SEP_MAX := 16
  const MAG_MAX := 16
  const OFF_BITS := 62

  datatype Outcome = Image(bytes: seq<bv8>) | WrongState | InvalidSep | InvalidMag

  /** The sizes of an image: of a module in pixels, of the margin, of the sides, and of a line in bytes. */
  datatype Sizes = Sizes(dim: nat, mag: nat, sep: nat) {
    function Side(): nat {
      dim * mag + 2 * sep
    }

    /** Where the pixels of a row or column of the symbol begin. */
    function Start(j: nat): nat {
      sep + j * mag
    }

    /** Whether a row or column of the image falls on the symbol, and not on the margin. */
    predicate Across(x: nat) {
      sep <= x < sep + dim * mag
    }

    /** The row or column of the symbol there. */
    function Module(x: nat): (i: nat)
      requires mag > 0 && Across(x)
      ensures i < dim
    {
      Quotient(x - sep, mag, dim);
      (x - sep) / mag
    }

    function LineSize(): (n: nat)
      ensures n % 4 == 0 && Side() <= 8 * n < Side() + 32
    {
      var n := (Side() + 7) / 8;
      if n % 4 != 0 then n + 4 - n % 4 else n
    }
  }

  // ---- What the file holds ----

  function Byte(n: nat): bv8 {
    PackByte(ToBits(8, n % 256))
  }

  function Short(n: nat): (b: seq<bv8>)
    ensures |b| == 2
  {
    [Byte(n), Byte(n / 256)]
  }

  function Long(n: nat): (b: seq<bv8>)
    ensures |b| == 4
  {
    [Byte(n), Byte(n / 256), Byte(n / 65536), Byte(n / 16777216)]
  }

  function Header(side: nat, size: nat): (h: seq<bv8>)
    ensures |h| == OFF_BITS
  {
    [0x42, 0x4d] + Long(OFF_BITS + size) + Short(0) + Short(0) + Long(OFF_BITS)
    + Long(40) + Long(side) + Long(side) + Short(1) + Short(1) + Long(0) + Long(size) + Long(3780) + Long(3780) + Long(2) + Long(2)
    + [0x99, 0x99, 0x99, 0] + [0, 0, 0, 0]
  }

  // ---- What a reader of the header gets ----

  /** The number in so many bytes, the lowest first. */
  function LittleEndian(b: seq<bv8>): nat {
    if b == [] then 0 else b[0] as nat + 256 * LittleEndian(b[1..])
  }

  lemma ByteMeans(n: nat)
    ensures Byte(n) as nat == n % 256
  {
    assert Pow2(8) == 256;
    FromToBits(8, n % 256);
    PackByteValue(ToBits(8, n % 256));
  }

  lemma FirstByte(b: seq<bv8>)
    ensures LittleEndian(b) == if b == [] then 0 else b[0] as nat + 256 * LittleEndian(b[1..])
  {
  }

  lemma ShortMeans(n: nat)
    ensures LittleEndian(Short(n)) == n % 0x1_0000
  {
    ByteMeans(n);
    ByteMeans(n / 256);
    hide Byte, LittleEndian;
    TwoBytes(Short(n));
    TwoDigits(n);
  }

  lemma TwoBytes(b: seq<bv8>)
    requires |b| == 2
    ensures LittleEndian(b) == b[0] as nat + 256 * b[1] as nat
  {
    hide *;
    FirstByte(b);
    FirstByte(b[1..]);
    FirstByte([]);
    assert b[1..][1..] == [];
  }

  lemma TwoDigits(n: nat)
    ensures n % 0x1_0000 == n % 256 + 256 * (n / 256 % 256)
  {
  }

  lemma LongMeans(n: nat)
    ensures LittleEndian(Long(n)) == n % 0x1_0000_0000
  {
    ByteMeans(n);
    ByteMeans(n / 256);
    ByteMeans(n / 65536);
    ByteMeans(n / 16777216);
    hide Byte, LittleEndian;
    FourBytes(Long(n));
    FourDigits(n);
  }

  lemma FourBytes(b: seq<bv8>)
    requires |b| == 4
    ensures LittleEndian(b) == b[0] as nat + 256 * b[1] as nat + 65536 * b[2] as nat + 16777216 * b[3] as nat
  {
    hide *;
    FirstByte(b);
    FirstByte(b[1..]);
    FirstByte(b[2..]);
    FirstByte(b[3..]);
    FirstByte([]);
    assert b[1..][1..] == b[2..] && b[2..][1..] == b[3..] && b[3..][1..] == [];
  }

  lemma FourDigits(n: nat)
    ensures n % 0x1_0000_0000 ==
            n % 256 + 256 * (n / 256 % 256) + 65536 * (n / 65536 % 256) + 16777216 * (n / 16777216 % 256)
  {
    assert n / 65536 == n / 256 / 256 && n / 16777216 == n / 65536 / 256;
  }

  /** The value of the field of so many bytes. */
  function FieldAt(h: seq<bv8>, at: nat, size: nat): nat
    requires at + size <= |h|
  {
    LittleEndian(h[at..at + size])
  }

  /** The fields of the header at their places: sizes of file, header and image, one plane of one bit, two colours. */
  lemma HeaderReads(side: nat, size: nat)
    requires side < 0x1_0000_0000 && size < 0x1_0000_0000 - 62
    ensures var h := Header(side, size);
            && h[..2] == [0x42, 0x4d] && FieldAt(h, 2, 4) == 62 + size && FieldAt(h, 10, 4) == 62 && FieldAt(h, 14, 4) == 40
            && FieldAt(h, 18, 4) == FieldAt(h, 22, 4) == side && FieldAt(h, 26, 2) == FieldAt(h, 28, 2) == 1
            && FieldAt(h, 30, 4) == 0 && FieldAt(h, 34, 4) == size && FieldAt(h, 46, 4) == FieldAt(h, 50, 4) == 2
            && h[54..58] == [0x99, 0x99, 0x99, 0] && h[58..62] == [0, 0, 0, 0]
  {
    HeaderIs(side, size);
    hide *;
    var h, h2 := Header(side, size), [0x42, 0x4d];
    var h6 := h2 + Long(62 + size);
    var h10 := h6 + Short(0) + Short(0);
    var h14 := h10 + Long(62);
    var h18 := h14 + Long(40);
    var h22 := h18 + Long(side);
    var h26 := h22 + Long(side);
    var h28 := h26 + Short(1);
    var h30 := h28 + Short(1);
    var h34 := h30 + Long(0);
    var h38 := h34 + Long(size);
    var h46 := h38 + Long(3780) + Long(3780);
    var h50 := h46 + Long(2);
    var h54 := h50 + Long(2);
    var h58 := h54 + [0x99, 0x99, 0x99, 0];
    Behind(h, h58, [0, 0, 0, 0]);
    Behind(h, h54, [0x99, 0x99, 0x99, 0]);
    LongBehind(h, h50, 2);
    LongBehind(h, h46, 2);
    Behind(h, h38 + Long(3780), Long(3780));
    Behind(h, h38, Long(3780));
    LongBehind(h, h34, size);
    LongBehind(h, h30, 0);
    ShortBehind(h, h28, 1);
    ShortBehind(h, h26, 1);
    LongBehind(h, h22, side);
    LongBehind(h, h18, side);
    LongBehind(h, h14, 40);
    LongBehind(h, h10, 62);
    Behind(h, h6 + Short(0), Short(0));
    Behind(h, h6, Short(0));
    LongBehind(h, h2, 62 + size);
    assert h[..2] == h2;
  }

  lemma Behind(h: seq<bv8>, front: seq<bv8>, f: seq<bv8>)
    requires front + f <= h
    ensures front <= h && |front| + |f| <= |h| && h[|front|..|front| + |f|] == f
  {
    assert (front + f)[|front|..] == f;
  }

  lemma LongBehind(h: seq<bv8>, front: seq<bv8>, n: nat)
    requires front + Long(n) <= h && n < 0x1_0000_0000
    ensures front <= h && |front| + 4 <= |h| && FieldAt(h, |front|, 4) == n
  {
    LongMeans(n);
    hide Long, LittleEndian;
    Behind(h, front, Long(n));
  }

  lemma ShortBehind(h: seq<bv8>, front: seq<bv8>, n: nat)
    requires front + Short(n) <= h && n < 0x1_0000
    ensures front <= h && |front| + 2 <= |h| && FieldAt(h, |front|, 2) == n
  {
    ShortMeans(n);
    hide Short, LittleEndian;
    Behind(h, front, Short(n));
  }

  /** Whether the pixel x of a line is drawn, when the line shows the row i of the symbol. */
  predicate Drawn(g: Grid, s: Sizes, i: nat, x: nat)
    requires IsGrid(g, s.dim) && s.mag > 0 && i < s.dim
  {
    s.Across(x) && IsBlack(At(g, s.dim, i, s.Module(x)))
  }

  lemma Quotient(p: nat, m: nat, n: nat)
    requires m > 0 && p < n * m
    ensures p / m < n
  {
    assert m * (p / m) <= p;
  }

  function LineBits(g: Grid, s: Sizes, i: nat): (bits: seq<bool>)
    requires IsGrid(g, s.dim) && s.mag > 0 && i < s.dim
    ensures |bits| == 8 * s.LineSize()
  {
    seq(8 * s.LineSize(), x requires 0 <= x < 8 * s.LineSize() => Drawn(g, s, i, x))
  }

  /** The n-th line of the file. */
  function Line(g: Grid, s: Sizes, n: nat): (line: seq<bv8>)
    requires IsGrid(g, s.dim) && s.mag > 0 && n < s.Side()
    ensures |line| == s.LineSize()
  {
    var y := s.Side() - 1 - n;
    if s.Across(y) then PackBytes(LineBits(g, s, s.Module(y)))
    else seq(s.LineSize(), _ => 0)
  }

  function Lines(g: Grid, s: Sizes, n: nat): (lines: seq<bv8>)
    requires IsGrid(g, s.dim) && s.mag > 0 && n <= s.Side()
    ensures |lines| == n * s.LineSize()
  {
    if n == 0 then [] else Lines(g, s, n - 1) + Line(g, s, n - 1)
  }

  /** A header and all lines. */
  function FileOf(header: seq<bv8>, g: Grid, s: Sizes): (file: seq<bv8>)
    requires |header| == OFF_BITS && IsGrid(g, s.dim) && s.mag > 0
    ensures |file| == OFF_BITS + s.Side() * s.LineSize()
  {
    header + Lines(g, s, s.Side())
  }

  // ---- What a viewer sees ----

  /** Where the byte of a pixel is: the rows are stored from the bottom up. */
  function Place(side: nat, lineSize: nat, y: nat, x: nat): (k: nat)
    requires y < side && x < 8 * lineSize
    ensures k < side * lineSize
  {
    ByteInside(side, lineSize, side - 1 - y, x / 8);
    (side - 1 - y) * lineSize + x / 8
  }

  /** The pixel in row y from the top and column x, as a reader of the format finds it. */
  predicate Pixel(file: seq<bv8>, side: nat, lineSize: nat, y: nat, x: nat)
    requires y < side && x < 8 * lineSize && |file| == OFF_BITS + side * lineSize
  {
    HasBit(file[OFF_BITS + Place(side, lineSize, y, x)], 7 - x % 8)
  }

  lemma ByteInside(side: nat, lineSize: nat, n: nat, b: nat)
    requires n < side && b < lineSize
    ensures n * lineSize + b < side * lineSize
  {
    assert (n + 1) * lineSize <= side * lineSize;
  }

  /** A pixel is set exactly when it falls on a black module, and never in the margin or the padding. */
  lemma PixelShowsModule(header: seq<bv8>, g: Grid, s: Sizes, y: nat, x: nat)
    requires |header| == OFF_BITS && IsGrid(g, s.dim) && s.mag > 0 && y < s.Side() && x < 8 * s.LineSize()
    ensures Pixel(FileOf(header, g, s), s.Side(), s.LineSize(), y, x) <==>
              s.Across(y) && s.Across(x) && IsBlack(At(g, s.dim, s.Module(y), s.Module(x)))
  {
    hide *;
    var side, size := s.Side(), s.LineSize();
    var n := side - 1 - y;
    PixelMeans(FileOf(header, g, s), side, size, y, x);
    FileAt(header, g, s, n, x / 8, Place(side, size, y, x));
    LineMeans(g, s, n, y);
    if s.Across(y) {
      PackedAt(LineBits(g, s, s.Module(y)), x);
      BitsAt(g, s, s.Module(y), x);
    } else {
      NoInk(Line(g, s, n), x);
    }
  }

  lemma PixelMeans(file: seq<bv8>, side: nat, lineSize: nat, y: nat, x: nat)
    requires y < side && x < 8 * lineSize && |file| == OFF_BITS + side * lineSize
    ensures Pixel(file, side, lineSize, y, x) == HasBit(file[OFF_BITS + Place(side, lineSize, y, x)], 7 - x % 8)
    ensures Place(side, lineSize, y, x) == (side - 1 - y) * lineSize + x / 8
  {
    hide HasBit;
  }

  lemma FileAt(header: seq<bv8>, g: Grid, s: Sizes, n: nat, b: nat, k: nat)
    requires |header| == OFF_BITS && IsGrid(g, s.dim) && s.mag > 0 && n < s.Side() && b < s.LineSize()
    requires k == n * s.LineSize() + b && k < s.Side() * s.LineSize()
    ensures FileOf(header, g, s)[OFF_BITS + k] == Line(g, s, n)[b]
  {
    hide Line, Lines, IsGrid, Sizes.Side, Sizes.LineSize, OFF_BITS;
    LinesAt(g, s, s.Side(), n, b, k);
  }

  lemma {:induction false} LinesAt(g: Grid, s: Sizes, m: nat, n: nat, b: nat, k: nat)
    requires IsGrid(g, s.dim) && s.mag > 0 && n < m <= s.Side() && b < s.LineSize()
    requires k == n * s.LineSize() + b
    ensures k < m * s.LineSize() && Lines(g, s, m)[k] == Line(g, s, n)[b]
  {
    hide Line, IsGrid, Sizes.Side, Sizes.LineSize;
    ByteInside(m, s.LineSize(), n, b);
    if n < m - 1 {
      LinesAt(g, s, m - 1, n, b, k);
    }
  }

  lemma LineMeans(g: Grid, s: Sizes, n: nat, y: nat)
    requires IsGrid(g, s.dim) && s.mag > 0 && y < s.Side() && n == s.Side() - 1 - y
    ensures s.Across(y) ==> Line(g, s, n) == PackBytes(LineBits(g, s, s.Module(y)))
    ensures !s.Across(y) ==> Line(g, s, n) == seq(s.LineSize(), _ => 0)
  {
    hide IsGrid, Sizes.Side, Sizes.LineSize, Sizes.Across, Sizes.Module, PackBytes, LineBits;
  }

  lemma BitsAt(g: Grid, s: Sizes, i: nat, x: nat)
    requires IsGrid(g, s.dim) && s.mag > 0 && i < s.dim && x < 8 * s.LineSize()
    ensures LineBits(g, s, i)[x] <==> s.Across(x) && IsBlack(At(g, s.dim, i, s.Module(x)))
  {
    hide IsGrid, Sizes.Side, Sizes.LineSize, Sizes.Across, Sizes.Module, IsBlack, At;
  }

  lemma PackedAt(bits: seq<bool>, x: nat)
    requires |bits| % 8 == 0 && x < |bits|
    ensures HasBit(PackBytes(bits)[x / 8], 7 - x % 8) == bits[x]
  {
    hide HasBit, PackByte;
    var b := x / 8;
    var eight := bits[8 * b..8 * b + 8];
    PackByteBits(eight, 7 - x % 8);
    assert eight[x % 8] == bits[x];
  }

  lemma NoInk(line: seq<bv8>, x: nat)
    requires x < 8 * |line| && line == seq(|line|, _ => 0)
    ensures !HasBit(line[x / 8], 7 - x % 8)
  {
  }

  // ---- How it is drawn ----

  /** Of the bits of a line, the first p are drawn, and nothing else. */
  ghost predicate Inked(row: seq<bv8>, bits: seq<bool>, p: nat) {
    && |bits| == 8 * |row|
    && forall x :: 0 <= x < |bits| ==> HasBit(row[x / 8], 7 - x % 8) == (x < p && bits[x])
  }

  lemma Blank(row: seq<bv8>, bits: seq<bool>)
    requires |bits| == 8 * |row| && forall k :: 0 <= k < |row| ==> row[k] == 0
    ensures Inked(row, bits, 0)
  {
  }

  lemma Skipped(row: seq<bv8>, bits: seq<bool>, p: nat)
    requires Inked(row, bits, p) && p < |bits| && !bits[p]
    ensures Inked(row, bits, p + 1)
  {
    hide HasBit;
  }

  lemma Marked(row: seq<bv8>, bits: seq<bool>, p: nat)
    requires Inked(row, bits, p) && p < |bits| && bits[p]
    ensures Inked(row[p / 8 := row[p / 8] | BitMask(7 - p % 8)], bits, p + 1)
  {
    hide HasBit, BitMask;
    var now := row[p / 8 := row[p / 8] | BitMask(7 - p % 8)];
    forall x | 0 <= x < |bits| ensures HasBit(now[x / 8], 7 - x % 8) == (x < p + 1 && bits[x]) {
      MarkedAt(row, p, x);
    }
  }

  lemma MarkedAt(row: seq<bv8>, p: nat, x: nat)
    requires p < 8 * |row| && x < 8 * |row|
    ensures HasBit(row[p / 8 := row[p / 8] | BitMask(7 - p % 8)][x / 8], 7 - x % 8) == (x == p || HasBit(row[x / 8], 7 - x % 8))
  {
    hide HasBit, BitMask;
    if x / 8 == p / 8 {
      OrBit(row[p / 8], 7 - p % 8, 7 - x % 8);
    }
  }

  lemma AllInked(row: seq<bv8>, bits: seq<bool>, p: nat)
    requires Inked(row, bits, p) && p <= |bits| && forall x :: p <= x < |bits| ==> !bits[x]
    ensures row == PackBytes(bits)
  {
    hide HasBit, PackByte;
    forall b | 0 <= b < |row| ensures row[b] == PackBytes(bits)[b] {
      forall k | 0 <= k < 8 ensures HasBit(row[b], k) == HasBit(PackBytes(bits)[b], k) {
        var x := 8 * b + (7 - k);
        assert x / 8 == b && x % 8 == 7 - k;
        PackedAt(bits, x);
      }
      BytesAreTheirBits(row[b], PackBytes(bits)[b]);
    }
  }

  /** The place of a pixel in a line of bytes. */
  ghost predicate PlaceIs(p: nat, rptr: nat, pxshift: nat) {
    p == 8 * rptr + 7 - pxshift && pxshift < 8
  }

  method NextPixel(rptr: nat, pxshift: nat, ghost p: nat) returns (next: nat, shift: nat)
    requires PlaceIs(p, rptr, pxshift)
    ensures PlaceIs(p + 1, next, shift)
  {
    if pxshift == 0 {
      next, shift := rptr + 1, 7;
    } else {
      next, shift := rptr, pxshift - 1;
    }
  }

  /** The pixels of one module. */
  lemma ModulePixels(g: Grid, s: Sizes, i: nat, j: nat)
    requires IsGrid(g, s.dim) && s.mag > 0 && i < s.dim && j < s.dim
    ensures Inside(s.dim, i, j)
    ensures s.Start(j) + s.mag == s.Start(j + 1) <= |LineBits(g, s, i)|
    ensures forall x :: s.Start(j) <= x < s.Start(j) + s.mag ==> LineBits(g, s, i)[x] == IsBlack(At(g, s.dim, i, j))
  {
    hide *;
    StartsWithin(s, i, j);
    forall x | s.Start(j) <= x < s.Start(j) + s.mag ensures s.Across(x) && s.Module(x) == j {
      AcrossModule(s, j, x);
    }
    forall x | s.Start(j) <= x < s.Start(j) + s.mag ensures LineBits(g, s, i)[x] == IsBlack(At(g, s.dim, i, j)) {
      assert x < 8 * s.LineSize();
      BitsAt(g, s, i, x);
    }
  }

  lemma StartsWithin(s: Sizes, i: nat, j: nat)
    requires i < s.dim && j < s.dim
    ensures Inside(s.dim, i, j) && s.Start(j) + s.mag == s.Start(j + 1) <= 8 * s.LineSize()
  {
    hide Sizes.LineSize;
    Mono(s.mag, j + 1, s.dim);
    assert s.Start(j + 1) <= s.Side();
  }

  lemma AcrossModule(s: Sizes, j: nat, x: nat)
    requires j < s.dim && s.mag > 0 && s.Start(j) <= x < s.Start(j) + s.mag
    ensures s.Across(x) && s.Module(x) == j
  {
    Mono(s.mag, j + 1, s.dim);
    QuotientIs(x - s.sep, s.mag, j, x - s.sep - j * s.mag);
  }

  lemma MarginPixels(g: Grid, s: Sizes, i: nat)
    requires IsGrid(g, s.dim) && s.mag > 0 && i < s.dim
    ensures s.Start(0) == s.sep <= s.Start(s.dim) <= |LineBits(g, s, i)|
    ensures forall x :: 0 <= x < s.sep || s.Start(s.dim) <= x < |LineBits(g, s, i)| ==> !LineBits(g, s, i)[x]
  {
    hide IsBlack, At, IsGrid, Sizes.LineSize, Sizes.Module;
    assert s.Side() <= 8 * s.LineSize();
    forall x | 0 <= x < s.sep || s.Start(s.dim) <= x < |LineBits(g, s, i)| ensures !LineBits(g, s, i)[x] {
      BitsAt(g, s, i, x);
    }
  }

  /** Draws the row i of the symbol into the buffer of a line. */
  method DrawLine(g: Grid, s: Sizes, i: nat, rbuf: array<bv8>)
    requires IsGrid(g, s.dim) && s.mag > 0 && i < s.dim && rbuf.Length == s.LineSize()
    modifies rbuf
    ensures rbuf[..] == PackBytes(LineBits(g, s, i))
  {
    hide *;
    for k := 0 to rbuf.Length
      invariant forall l :: 0 <= l < k ==> rbuf[l] == 0
    {
      rbuf[k] := 0;
    }
    ghost var bits := LineBits(g, s, i);
    Blank(rbuf[..], bits);
    MarginPixels(g, s, i);
    var rptr, pxshift := 0, 7;
    FirstPlace();
    for j := 0 to s.sep
      invariant PlaceIs(j, rptr, pxshift) && Inked(rbuf[..], bits, j)
    {
      Skipped(rbuf[..], bits, j);
      rptr, pxshift := NextPixel(rptr, pxshift, j);
    }
    for j := 0 to s.dim
      invariant PlaceIs(s.Start(j), rptr, pxshift) && Inked(rbuf[..], bits, s.Start(j))
    {
      ModulePixels(g, s, i, j);
      rptr, pxshift := DrawModule(IsBlack(At(g, s.dim, i, j)), s.mag, rbuf, rptr, pxshift, bits, s.Start(j));
    }
    AllInked(rbuf[..], bits, s.Start(s.dim));
  }

  lemma FirstPlace()
    ensures PlaceIs(0, 0, 7)
  {
  }

  method DrawModule(black: bool, mag: nat, rbuf: array<bv8>, rptr0: nat, pxshift0: nat, ghost bits: seq<bool>, ghost p: nat)
    returns (rptr: nat, pxshift: nat)
    requires PlaceIs(p, rptr0, pxshift0) && Inked(rbuf[..], bits, p) && p + mag <= |bits|
    requires forall x :: p <= x < p + mag ==> bits[x] == black
    modifies rbuf
    ensures PlaceIs(p + mag, rptr, pxshift) && Inked(rbuf[..], bits, p + mag)
  {
    hide *;
    rptr, pxshift := rptr0, pxshift0;
    for jx := 0 to mag
      invariant PlaceIs(p + jx, rptr, pxshift) && Inked(rbuf[..], bits, p + jx)
    {
      PlaceMeans(p + jx, rptr, pxshift, rbuf[..], bits);
      if black {
        Marked(rbuf[..], bits, p + jx);
        rbuf[rptr] := rbuf[rptr] | BitMask(pxshift);
      } else {
        Skipped(rbuf[..], bits, p + jx);
      }
      rptr, pxshift := NextPixel(rptr, pxshift, p + jx);
    }
  }

  lemma PlaceMeans(p: nat, rptr: nat, pxshift: nat, row: seq<bv8>, bits: seq<bool>)
    requires PlaceIs(p, rptr, pxshift) && Inked(row, bits, p) && p < |bits|
    ensures rptr == p / 8 < |row| && pxshift == 7 - p % 8
  {
    hide HasBit;
  }

  // ---- How the file is written ----

  method WriteShort(buf: array<bv8>, ptr: nat, n: nat) returns (next: nat)
    requires ptr + 2 <= buf.Length
    modifies buf
    ensures next == ptr + 2 && buf[..next] == old(buf[..ptr]) + Short(n)
  {
    hide Byte;
    ghost var before := buf[..ptr];
    buf[ptr], buf[ptr + 1] := Byte(n), Byte(n / 256);
    next := ptr + 2;
    assert buf[..next] == before + [Byte(n), Byte(n / 256)];
  }

  method WriteFour(buf: array<bv8>, ptr: nat, a: bv8, b: bv8, c: bv8, d: bv8) returns (next: nat)
    requires ptr + 4 <= buf.Length
    modifies buf
    ensures next == ptr + 4 && buf[..next] == old(buf[..ptr]) + [a, b, c, d]
  {
    ghost var before := buf[..ptr];
    buf[ptr], buf[ptr + 1], buf[ptr + 2], buf[ptr + 3] := a, b, c, d;
    next := ptr + 4;
    assert buf[..next] == before + [a, b, c, d];
  }

  method WriteLong(buf: array<bv8>, ptr: nat, n: nat) returns (next: nat)
    requires ptr + 4 <= buf.Length
    modifies buf
    ensures next == ptr + 4 && buf[..next] == old(buf[..ptr]) + Long(n)
  {
    hide Byte;
    next := WriteFour(buf, ptr, Byte(n), Byte(n / 256), Byte(n / 65536), Byte(n / 16777216));
  }

  method WriteHeader(buf: array<bv8>, size: nat, side: nat) returns (ptr: nat)
    requires buf.Length >= 62
    modifies buf
    ensures ptr == OFF_BITS == 62 && buf[..ptr] == Header(side, size)
  {
    hide *;
    buf[0], buf[1] := 0x42, 0x4d;
    assert buf[..2] == [0x42, 0x4d];
    ptr := WriteLong(buf, 2, 62 + size);
    ptr := WriteShort(buf, ptr, 0);
    ptr := WriteShort(buf, ptr, 0);
    ptr := WriteLong(buf, ptr, 62);
    ptr := WriteLong(buf, ptr, 40);
    ptr := WriteLong(buf, ptr, side);
    ptr := WriteLong(buf, ptr, side);
    ptr := WriteShort(buf, ptr, 1);
    ptr := WriteShort(buf, ptr, 1);
    ptr := WriteLong(buf, ptr, 0);
    ptr := WriteLong(buf, ptr, size);
    ptr := WriteLong(buf, ptr, 3780);
    ptr := WriteLong(buf, ptr, 3780);
    ptr := WriteLong(buf, ptr, 2);
    ptr := WriteLong(buf, ptr, 2);
    ptr := WriteFour(buf, ptr, 0x99, 0x99, 0x99, 0);
    ptr := WriteFour(buf, ptr, 0, 0, 0, 0);
    HeaderIs(side, size);
  }

  lemma HeaderIs(side: nat, size: nat)
    ensures OFF_BITS == 62
    ensures Header(side, size) ==
            [0x42, 0x4d] + Long(62 + size) + Short(0) + Short(0) + Long(62)
            + Long(40) + Long(side) + Long(side) + Short(1) + Short(1) + Long(0) + Long(size) + Long(3780) + Long(3780) + Long(2) + Long(2)
            + [0x99, 0x99, 0x99, 0] + [0, 0, 0, 0]
  {
    hide Short, Long, Byte;
  }

  /** Copies a line behind what is written. */
  method CopyLine(buf: array<bv8>, ptr: nat, line: array<bv8>) returns (next: nat)
    requires ptr + line.Length <= buf.Length && buf != line
    modifies buf
    ensures next == ptr + line.Length && buf[..next] == old(buf[..ptr]) + line[..]
  {
    ghost var before := buf[..ptr];
    for k := 0 to line.Length
      invariant buf[..ptr + k] == before + line[..k]
    {
      buf[ptr + k] := line[k];
      assert buf[..ptr + k + 1] == buf[..ptr + k] + [line[k]];
    }
    assert line[..line.Length] == line[..];
    next := ptr + line.Length;
  }

  method Clear(buf: array<bv8>, ptr: nat, len: nat) returns (next: nat)
    requires ptr + len <= buf.Length
    modifies buf
    ensures next == ptr + len && buf[..next] == old(buf[..ptr]) + seq(len, _ => 0)
  {
    ghost var before := buf[..ptr];
    for k := 0 to len
      invariant buf[..ptr + k] == before + seq(k, _ => 0)
    {
      buf[ptr + k] := 0;
      assert buf[..ptr + k + 1] == buf[..ptr + k] + [0];
    }
    next := ptr + len;
  }

  // ---- The whole image ----

  /** Lines of a margin are empty. */
  lemma {:induction false} MarginLines(g: Grid, s: Sizes, n: nat, k: nat)
    requires IsGrid(g, s.dim) && s.mag > 0 && n + k <= s.Side()
    requires forall y :: s.Side() - n - k <= y < s.Side() - n ==> !s.Across(y)
    ensures Lines(g, s, n + k) == Lines(g, s, n) + seq(k * s.LineSize(), _ => 0)
  {
    if k > 0 {
      MarginLines(g, s, n, k - 1);
      LineMeans(g, s, n + k - 1, s.Side() - n - k);
      assert !s.Across(s.Side() - n - k);
      var size := s.LineSize();
      assert Lines(g, s, n + k) == Lines(g, s, n + k - 1) + Line(g, s, n + k - 1);
      hide *;
      RowsApart(size, k - 1, k);
      Emptiness((k - 1) * size, size);
    }
  }

  lemma Emptiness(a: nat, b: nat)
    ensures seq<bv8>(a + b, _ => 0) == seq<bv8>(a, _ => 0) + seq<bv8>(b, _ => 0)
  {
  }

  lemma Margins(s: Sizes)
    ensures forall y :: s.Side() - s.sep <= y < s.Side() ==> !s.Across(y)
    ensures forall y :: 0 <= y < s.sep ==> !s.Across(y)
    ensures s.Side() == s.Start(s.dim) + s.sep
  {
  }

  /** The lines of the file that show the row i of the symbol. */
  lemma BodyLine(g: Grid, s: Sizes, i: nat, n: nat, ix: nat)
    requires IsGrid(g, s.dim) && s.mag > 0 && i < s.dim && ix < s.mag && n == s.Start(s.dim - 1 - i) + ix
    ensures n < s.Side() && Line(g, s, n) == PackBytes(LineBits(g, s, i))
  {
    Mono(s.mag, i + 1, s.dim);
    var y := s.Side() - 1 - n;
    assert (s.dim - 1 - i) * s.mag + (i + 1) * s.mag == s.dim * s.mag;
    assert y == s.sep + i * s.mag + (s.mag - 1 - ix);
    QuotientIs(y - s.sep, s.mag, i, s.mag - 1 - ix);
    assert s.Across(y) && s.Module(y) == i;
    hide *;
    LineMeans(g, s, n, y);
  }

  lemma NextLine(g: Grid, s: Sizes, n: nat)
    requires IsGrid(g, s.dim) && s.mag > 0 && n < s.Side()
    ensures Lines(g, s, n + 1) == Lines(g, s, n) + Line(g, s, n)
  {
  }

  lemma NoLines(g: Grid, s: Sizes)
    requires IsGrid(g, s.dim) && s.mag > 0
    ensures Lines(g, s, 0) == []
  {
  }

  /** A margin is held to be too large when the magnification is. */
  predicate IsAccepted(finished: bool, sep: int, mag: int) {
    finished && (sep == -1 || (sep >= 0 && mag <= SEP_MAX)) && 0 < mag <= MAG_MAX
  }

  /** So no margin is too large: 1000 modules on each side are taken, for an image of 2021 pixels. */
  lemma MarginUnbounded(sep: nat, mag: int)
    requires 0 < mag <= MAG_MAX
    ensures IsAccepted(true, sep, mag)
    ensures IsAccepted(true, 1000, 1) && Sizes(21, 1, 1000).Side() == 2021
  {
  }

  /** The symbol as a file; a margin of -1 is the usual one. */
  method SymbolToBmp(finished: bool, g: Grid, dim: nat, sep: int, mag: int) returns (r: Outcome)
    requires IsGrid(g, dim)
    ensures r.Image? <==> IsAccepted(finished, sep, mag)
    ensures !finished ==> r == WrongState
    ensures finished && sep != -1 && (sep < 0 || mag > SEP_MAX) ==> r == InvalidSep
    ensures finished && !(sep != -1 && (sep < 0 || mag > SEP_MAX)) && (mag <= 0 || mag > MAG_MAX) ==> r == InvalidMag
    ensures finished && -1 <= sep && 0 < mag <= MAG_MAX ==>
              var s := Sizes(dim, mag, if sep == -1 then DIM_SEP * mag else sep * mag);
              r == Image(FileOf(Header(s.Side(), s.Side() * s.LineSize()), g, s))
  {
    hide FileOf, Header, Sizes.Side, Sizes.LineSize;
    if !finished {
      return WrongState;
    }
    if sep != -1 && (sep < 0 || mag > SEP_MAX) {
      return InvalidSep;
    }
    if mag <= 0 || mag > MAG_MAX {
      return InvalidMag;
    }
    var margin: nat := if sep == -1 then DIM_SEP * mag else sep * mag;
    var bytes := Draw(g, Sizes(dim, mag, margin));
    return Image(bytes);
  }

  /** The header and the first n lines are written. */
  ghost predicate Written(g: Grid, s: Sizes, buf: array<bv8>, ptr: nat, header: seq<bv8>, n: nat)
    reads buf
  {
    && IsGrid(g, s.dim) && s.mag > 0 && n <= s.Side() && |header| == OFF_BITS
    && ptr == OFF_BITS + n * s.LineSize() && buf.Length == OFF_BITS + s.Side() * s.LineSize()
    && ptr <= buf.Length && buf[..ptr] == header + Lines(g, s, n)
  }

  lemma WrittenMeans(g: Grid, s: Sizes, buf: array<bv8>, ptr: nat, header: seq<bv8>, n: nat, k: nat)
    requires Written(g, s, buf, ptr, header, n) && n + k <= s.Side()
    ensures ptr + k * s.LineSize() == OFF_BITS + (n + k) * s.LineSize() <= buf.Length == OFF_BITS + s.Side() * s.LineSize()
    ensures buf[..ptr] == header + Lines(g, s, n)
  {
    hide Sizes.Side, Sizes.LineSize, Lines;
    Mono(s.LineSize(), n + k, s.Side());
    RowsApart(s.LineSize(), n, n + k);
  }

  lemma WrittenIs(g: Grid, s: Sizes, buf: array<bv8>, ptr: nat, header: seq<bv8>, n: nat)
    requires IsGrid(g, s.dim) && s.mag > 0 && n <= s.Side() && |header| == OFF_BITS
    requires ptr == OFF_BITS + n * s.LineSize() <= buf.Length == OFF_BITS + s.Side() * s.LineSize()
    requires buf[..ptr] == header + Lines(g, s, n)
    ensures Written(g, s, buf, ptr, header, n)
    ensures n == s.Side() ==> buf[..] == FileOf(header, g, s)
  {
    hide Sizes.Side, Sizes.LineSize, Lines, IsGrid;
    assert n == s.Side() ==> buf[..ptr] == buf[..];
  }

  method AddLine(g: Grid, s: Sizes, buf: array<bv8>, ptr: nat, line: array<bv8>, ghost header: seq<bv8>, ghost n: nat)
    returns (next: nat)
    requires Written(g, s, buf, ptr, header, n) && IsGrid(g, s.dim) && s.mag > 0 && n < s.Side()
    requires line != buf && line.Length == s.LineSize() && line[..] == Line(g, s, n)
    modifies buf
    ensures Written(g, s, buf, next, header, n + 1)
  {
    hide *;
    WrittenMeans(g, s, buf, ptr, header, n, 1);
    HeaderSize(g, s, buf, ptr, header, n);
    next := CopyLine(buf, ptr, line);
    NextLine(g, s, n);
    assert (header + Lines(g, s, n)) + Line(g, s, n) == header + (Lines(g, s, n) + Line(g, s, n));
    WrittenIs(g, s, buf, next, header, n + 1);
  }

  lemma HeaderSize(g: Grid, s: Sizes, buf: array<bv8>, ptr: nat, header: seq<bv8>, n: nat)
    requires Written(g, s, buf, ptr, header, n)
    ensures |header| == OFF_BITS
  {
    hide Lines;
  }

  method DrawMargin(g: Grid, s: Sizes, buf: array<bv8>, ptr: nat, ghost header: seq<bv8>, ghost n: nat) returns (next: nat)
    requires Written(g, s, buf, ptr, header, n) && IsGrid(g, s.dim) && s.mag > 0 && n + s.sep <= s.Side()
    requires forall y :: s.Side() - n - s.sep <= y < s.Side() - n ==> !s.Across(y)
    modifies buf
    ensures Written(g, s, buf, next, header, n + s.sep)
  {
    hide *;
    WrittenMeans(g, s, buf, ptr, header, n, s.sep);
    HeaderSize(g, s, buf, ptr, header, n);
    MarginLines(g, s, n, s.sep);
    var sepskips := s.sep * s.LineSize();
    next := Clear(buf, ptr, sepskips);
    ghost var empty: seq<bv8> := seq(sepskips, _ => 0);
    assert (header + Lines(g, s, n)) + empty == header + (Lines(g, s, n) + empty);
    WrittenIs(g, s, buf, next, header, n + s.sep);
  }

  method Draw(g: Grid, s: Sizes) returns (bytes: seq<bv8>)
    requires IsGrid(g, s.dim) && s.mag > 0
    ensures bytes == FileOf(Header(s.Side(), s.Side() * s.LineSize()), g, s)
  {
    hide *;
    var side, rsize := s.Side(), s.LineSize();
    var size := side * rsize;
    var sbuf := new bv8[62 + size];
    var rbuf := new bv8[rsize];
    var ptr := WriteHeader(sbuf, size, side);
    ghost var header := sbuf[..ptr];
    NoLines(g, s);
    Margins(s);
    assert header + [] == header;
    WrittenIs(g, s, sbuf, ptr, header, 0);
    ptr := DrawMargin(g, s, sbuf, ptr, header, 0);
    ptr := DrawBody(g, s, sbuf, ptr, rbuf, header);
    ptr := DrawMargin(g, s, sbuf, ptr, header, s.Start(s.dim));
    WrittenMeans(g, s, sbuf, ptr, header, side, 0);
    WrittenIs(g, s, sbuf, ptr, header, side);
    bytes := sbuf[..];
  }

  /** Every row of the symbol, the last one first, each as many times as a module has pixels. */
  method DrawBody(g: Grid, s: Sizes, sbuf: array<bv8>, ptr0: nat, rbuf: array<bv8>, ghost header: seq<bv8>) returns (ptr: nat)
    requires Written(g, s, sbuf, ptr0, header, s.sep) && IsGrid(g, s.dim) && s.mag > 0
    requires rbuf != sbuf && rbuf.Length == s.LineSize()
    modifies sbuf, rbuf
    ensures Written(g, s, sbuf, ptr, header, s.Start(s.dim))
  {
    hide *;
    ptr := ptr0;
    StartNext(s, 0);
    for i := s.dim downto 0
      invariant Written(g, s, sbuf, ptr, header, s.Start(s.dim - i))
    {
      DrawLine(g, s, i, rbuf);
      ghost var first := s.Start(s.dim - 1 - i);
      StartNext(s, s.dim - 1 - i);
      for ix := 0 to s.mag
        invariant rbuf[..] == PackBytes(LineBits(g, s, i))
        invariant Written(g, s, sbuf, ptr, header, first + ix)
      {
        BodyLine(g, s, i, first + ix, ix);
        ptr := AddLine(g, s, sbuf, ptr, rbuf, header, first + ix);
      }
    }
  }

  lemma StartNext(s: Sizes, j: nat)
    ensures s.Start(0) == s.sep && s.Start(j + 1) == s.Start(j) + s.mag
  {
  }
}
