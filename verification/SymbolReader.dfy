/**
 A noise-free reader that sees nothing but the size of a symbol and the colours of its modules: it reads the format
 information, takes the mask off, walks the free modules, collects the code words, and sorts them into blocks.
 */
module SymbolReader {
  import opened Bits
  import opened Options
  import opened Segments
  import opened Modules
  import opened Placement
  import opened VersionTable
  import opened FunctionPattern
  import opened PatternDrawing
  import opened Masking
  import opened FormatInfo
  import opened CodewordBlocks
  import Syndromes

  /** Dark modules, row by row. */
  type Printed = seq<bool>

  function Colours(g: Grid): (p: Printed)
    ensures |p| == |g| && forall k :: 0 <= k < |g| ==> p[k] == IsBlack(g[k])
  {
    seq(|g|, k requires 0 <= k < |g| => IsBlack(g[k]))
  }

  predicate IsPrinted(p: Printed, v: int)
    requires IsVersion(v)
  {
    |p| == Dimension(v) * Dimension(v)
  }

  function ColourAt(p: Printed, v: int, y: int, x: int): bool
    requires IsVersion(v) && IsPrinted(p, v) && Inside(Dimension(v), y, x)
  {
    IndexInside(Dimension(v), y, x);
    p[Index(Dimension(v), y, x)]
  }

  lemma ColourOf(g: Grid, v: int, y: int, x: int)
    requires IsVersion(v) && IsGrid(g, Dimension(v)) && Inside(Dimension(v), y, x)
    ensures ColourAt(Colours(g), v, y, x) == IsBlack(At(g, Dimension(v), y, x))
  {
    IndexInside(Dimension(v), y, x);
  }

  // ---- Format and version information ----

  function PrintedFormat(p: Printed, v: int, copy: nat): (w: Word)
    requires IsVersion(v) && IsPrinted(p, v) && copy < 2
  {
    seq(15, j requires 0 <= j < 15 =>
      ColourAt(p, v, FormatCell(Dimension(v), copy, j).0, FormatCell(Dimension(v), copy, j).1))
  }

  function PrintedVersion(p: Printed, v: int, copy: nat): (bits: seq<bool>)
    requires IsVersion(v) && IsPrinted(p, v) && copy < 2
    ensures |bits| == 18
  {
    seq(18, j requires 0 <= j < 18 =>
      ColourAt(p, v, VersionCell(Dimension(v), copy, 17 - j).0, VersionCell(Dimension(v), copy, 17 - j).1))
  }

  /** Every bit of the format word has a place of its own in each copy, apart from everything else. */
  lemma FormatPlaces(v: int, fmt: Word, copy: nat, j: nat)
    requires IsVersion(v) && copy < 2 && j < 15
    ensures var c := FormatCell(Dimension(v), copy, j);
            Inside(Dimension(v), c.0, c.1) && InFormat(Dimension(v), c.0, c.1) && (InfoInk(v, fmt, c.0, c.1) <==> fmt[j])
  {
    var d := Dimension(v);
    var c := FormatCell(d, copy, j);
    if FormatInk(d, fmt, 2, 0, c.0, c.1) {
      var i, k :| 0 <= i < 2 && 0 <= k < 15 && fmt[k] && FormatCell(d, i, k) == (c.0, c.1);
      assert k == j;
    }
    if fmt[j] {
      assert FormatInk(d, fmt, 2, 0, c.0, c.1);
    }
    NoVersionInkAt(d, v, c.0, c.1);
  }

  lemma NoVersionInkAt(d: nat, v: int, y: int, x: int)
    requires d >= 21 && !InVersionInfo(7, d, y, x)
    ensures !VersionInk(d, v, 2, 0, y, x)
  {
    hide VersionWord, BitOf;
  }

  lemma VersionPlaces(v: int, fmt: Word, copy: nat, j: nat)
    requires 7 <= v <= MAX_VERSION && copy < 2 && j < 18
    ensures var c := VersionCell(Dimension(v), copy, j);
            && Inside(Dimension(v), c.0, c.1) && InVersionInfo(7, Dimension(v), c.0, c.1)
            && (InfoInk(v, fmt, c.0, c.1) <==> BitOf(VersionWord(v), j))
  {
    hide VersionWord, BitOf;
    var d := Dimension(v);
    var c := VersionCell(d, copy, j);
    if VersionInk(d, v, 2, 0, c.0, c.1) {
      var i, k :| 0 <= i < 2 && 0 <= k < 18 && BitOf(VersionWord(v), k) && VersionCell(d, i, k) == (c.0, c.1);
      assert k == j;
    }
    if BitOf(VersionWord(v), j) {
      assert VersionInk(d, v, 2, 0, c.0, c.1);
    }
  }

  /** The areas of format and version information stay light until they are printed. */
  lemma InfoAreasLight(g: Grid, v: int, y: int, x: int)
    requires IsVersion(v) && HasPattern(g, v) && Inside(Dimension(v), y, x)
    requires InFormat(Dimension(v), y, x) || (v >= 7 && InVersionInfo(7, Dimension(v), y, x))
    ensures IsFunc(At(g, Dimension(v), y, x)) && !IsBlack(At(g, Dimension(v), y, x))
  {
    var d, cs := Dimension(v), AlignmentCentres(v);
    CapacitiesExact(v);
    CornerColour(d, cs, y, x);
    hide IsFunc, IsBlack, IsData, PatternIsBlack, AlignmentCentres, TotalWords, RemainderBits;
  }

  /** What is printed there is the format word, twice, and the version word, twice. */
  lemma InfoReadable(g: Grid, h: Grid, mask: nat, s: Grid, v: int, fmt: Word)
    requires IsVersion(v) && mask < MASKS && HasPattern(g, v) && IsGrid(h, Dimension(v))
    requires forall y, x :: Inside(Dimension(v), y, x) && IsFunctionModule(v, y, x) ==>
               At(h, Dimension(v), y, x) == At(g, Dimension(v), y, x)
    requires InfoPrinted(MaskedGrid(h, Dimension(v), mask), s, v, fmt)
    ensures PrintedFormat(Colours(s), v, 0) == PrintedFormat(Colours(s), v, 1) == fmt
    ensures v >= 7 ==> PrintedVersion(Colours(s), v, 0) == PrintedVersion(Colours(s), v, 1) == ToBits(18, VersionWord(v))
  {
    hide *;
    FormatReadable(g, h, mask, s, v, fmt, 0);
    FormatReadable(g, h, mask, s, v, fmt, 1);
    if v >= 7 {
      VersionReadable(g, h, mask, s, v, fmt, 0);
      VersionReadable(g, h, mask, s, v, fmt, 1);
    }
  }

  lemma FormatReadable(g: Grid, h: Grid, mask: nat, s: Grid, v: int, fmt: Word, copy: nat)
    requires IsVersion(v) && mask < MASKS && HasPattern(g, v) && IsGrid(h, Dimension(v)) && copy < 2
    requires forall y, x :: Inside(Dimension(v), y, x) && IsFunctionModule(v, y, x) ==>
               At(h, Dimension(v), y, x) == At(g, Dimension(v), y, x)
    requires InfoPrinted(MaskedGrid(h, Dimension(v), mask), s, v, fmt)
    ensures IsPrinted(Colours(s), v) && PrintedFormat(Colours(s), v, copy) == fmt
  {
    hide IsFunc, IsBlack, IsData, FormatCell, InfoInk, InFormat, InVersionInfo, At, HasPattern, ColourAt, MaskedGrid, IsFunctionModule;
    forall j | 0 <= j < 15 ensures PrintedFormat(Colours(s), v, copy)[j] == fmt[j] {
      FormatPlaces(v, fmt, copy, j);
      InfoColour(g, h, mask, s, v, fmt, FormatCell(Dimension(v), copy, j).0, FormatCell(Dimension(v), copy, j).1);
    }
  }

  lemma VersionReadable(g: Grid, h: Grid, mask: nat, s: Grid, v: int, fmt: Word, copy: nat)
    requires IsVersion(v) && v >= 7 && mask < MASKS && HasPattern(g, v) && IsGrid(h, Dimension(v)) && copy < 2
    requires forall y, x :: Inside(Dimension(v), y, x) && IsFunctionModule(v, y, x) ==>
               At(h, Dimension(v), y, x) == At(g, Dimension(v), y, x)
    requires InfoPrinted(MaskedGrid(h, Dimension(v), mask), s, v, fmt)
    ensures IsPrinted(Colours(s), v) && PrintedVersion(Colours(s), v, copy) == ToBits(18, VersionWord(v))
  {
    hide IsFunc, IsBlack, IsData, VersionCell, InfoInk, InFormat, InVersionInfo, At, HasPattern, ColourAt, MaskedGrid,
         IsFunctionModule, ToBits, BitOf, VersionWord;
    forall j | 0 <= j < 18 ensures PrintedVersion(Colours(s), v, copy)[j] == ToBits(18, VersionWord(v))[j] {
      VersionPlaces(v, fmt, copy, 17 - j);
      ToBitsAt(18, VersionWord(v), j);
      InfoColour(g, h, mask, s, v, fmt, VersionCell(Dimension(v), copy, 17 - j).0, VersionCell(Dimension(v), copy, 17 - j).1);
    }
  }

  lemma InfoColour(g: Grid, h: Grid, mask: nat, s: Grid, v: int, fmt: Word, y: int, x: int)
    requires IsVersion(v) && mask < MASKS && HasPattern(g, v) && IsGrid(h, Dimension(v)) && Inside(Dimension(v), y, x)
    requires InFormat(Dimension(v), y, x) || (v >= 7 && InVersionInfo(7, Dimension(v), y, x))
    requires IsFunctionModule(v, y, x) ==> At(h, Dimension(v), y, x) == At(g, Dimension(v), y, x)
    requires InfoPrinted(MaskedGrid(h, Dimension(v), mask), s, v, fmt)
    ensures ColourAt(Colours(s), v, y, x) == InfoInk(v, fmt, y, x)
  {
    hide IsFunc, IsBlack, IsData, InfoInk, InFormat, InVersionInfo, At, Colours, ColourAt, MaskedGrid, Dimension;
    var d := Dimension(v);
    InfoAreasLight(g, v, y, x);
    FunctionFlag(g, v, y, x);
    MaskComesOff(h, d, mask, y, x);
    ColourOf(s, v, y, x);
    InfoAt(MaskedGrid(h, d, mask), s, v, fmt, y, x);
  }

  lemma FunctionFlag(g: Grid, v: int, y: int, x: int)
    requires IsVersion(v) && HasPattern(g, v) && Inside(Dimension(v), y, x)
    ensures IsFunc(At(g, Dimension(v), y, x)) == IsFunctionModule(v, y, x)
  {
    hide IsFunc, IsBlack, IsData, IsFunctionModule, PatternIsBlack;
  }

  lemma InfoAt(before: Grid, after: Grid, v: int, fmt: Word, y: int, x: int)
    requires IsVersion(v) && InfoPrinted(before, after, v, fmt) && Inside(Dimension(v), y, x)
    ensures IsBlack(At(after, Dimension(v), y, x)) == (InfoInk(v, fmt, y, x) || IsBlack(At(before, Dimension(v), y, x)))
  {
    hide InfoInk, At, IsBlack, SetBlack;
    var m := SetBlack(At(before, Dimension(v), y, x));
  }

  // ---- Code words ----

  /** The function modules of a version, as a reader knows them. */
  ghost function Bare(v: int): (g: Grid)
    requires IsVersion(v)
    ensures IsGrid(g, Dimension(v))
  {
    var d := Dimension(v);
    seq(d * d, k requires 0 <= k < d * d => if IsFunctionModule(v, k / d, k % d) then FUNC else 0)
  }

  lemma BareHasFunctionPattern(v: int)
    requires IsVersion(v)
    ensures HasFunctionPattern(Bare(v), v)
  {
    hide IsFunctionModule;
    EmptyModule();
    assert IsFunc(FUNC);
    hide IsFunc;
    var d := Dimension(v);
    forall y, x | Inside(d, y, x) ensures IsFunc(At(Bare(v), d, y, x)) == IsFunctionModule(v, y, x) {
      IndexInside(d, y, x);
      IndexDivMod(d, y, x);
    }
  }

  /** Free modules of a version in reading order. */
  ghost function Walk(v: int): (cs: seq<Cursor>)
    requires IsVersion(v)
    ensures |cs| == 8 * TotalWords(v) + RemainderBits(v)
    ensures forall i :: 0 <= i < |cs| ==> OnWalk(Dimension(v), cs[i])
  {
    BareHasFunctionPattern(v);
    FreeModulesFit(Bare(v), v);
    FreeOrder(Bare(v), Dimension(v))
  }

  lemma WalkOfPattern(g: Grid, v: int)
    requires IsVersion(v) && HasFunctionPattern(g, v)
    ensures FreeOrder(g, Dimension(v)) == Walk(v)
  {
    hide IsFunctionModule, FreeOrder, IsFunc, Dimension;
    BareHasFunctionPattern(v);
    FreeOrderSame(g, Bare(v), Dimension(v));
  }

  /** The bit at place c: dark, unless the mask flips it. */
  function ReadBit(p: Printed, v: int, mask: nat, c: Cursor): bool
    requires IsVersion(v) && IsPrinted(p, v) && mask < MASKS && OnWalk(Dimension(v), c)
  {
    WalkInside(Dimension(v), c);
    ColourAt(p, v, Y(Dimension(v), c), X(Dimension(v), c)) != Flips(mask, Y(Dimension(v), c), X(Dimension(v), c))
  }

  ghost function ReadBits(p: Printed, v: int, mask: nat): (bits: seq<bool>)
    requires IsVersion(v) && IsPrinted(p, v) && mask < MASKS
    ensures |bits| == 8 * TotalWords(v)
  {
    seq(8 * TotalWords(v), i requires 0 <= i < 8 * TotalWords(v) => ReadBit(p, v, mask, Walk(v)[i]))
  }

  ghost function ReadWords(p: Printed, v: int, mask: nat): (code: seq<bv8>)
    requires IsVersion(v) && IsPrinted(p, v) && mask < MASKS
    ensures |code| == TotalWords(v)
  {
    PackBytes(ReadBits(p, v, mask))
  }

  /** The data bits of a symbol. */
  ghost function ReadStream(p: Printed, v: int, ecl: nat, mask: nat): (bits: seq<bool>)
    requires IsVersion(v) && IsPrinted(p, v) && ecl < 4 && mask < MASKS
    ensures |bits| == 8 * LevelOf(v, ecl).dataWords
  {
    BitStream(DataPart(ReadWords(p, v, mask), v, ecl))
  }

  /** The segments of a symbol; its level and mask are read from it. */
  ghost function ReadSymbol(p: Printed, v: int): Option<seq<Segment>>
    requires IsVersion(v) && IsPrinted(p, v)
  {
    var f := ReadFormat(PrintedFormat(p, v, 0));
    ReadSegments(Widths(v), ReadStream(p, v, f.ecl, f.mask))
  }

  /** No error is detected: in every block, every syndrome is zero. */
  ghost predicate FaultFree(p: Printed, v: int, ecl: nat, mask: nat)
    requires IsVersion(v) && IsPrinted(p, v) && ecl < 4 && mask < MASKS
  {
    forall b, i :: 0 <= b < LevelOf(v, ecl).BlockCount() && 0 <= i < EcWords(LevelOf(v, ecl)) ==>
      Syndromes.ValueAt(CodeBlock(ReadWords(p, v, mask), v, ecl, b), i) == 0
  }

  /** What a finished symbol says to the reader. */
  ghost predicate Shows(p: Printed, v: int, ecl: nat, mask: nat, content: seq<bool>)
    requires IsVersion(v) && ecl < 4 && mask < MASKS
  {
    && IsPrinted(p, v)
    && ReadFormat(PrintedFormat(p, v, 0)) == ReadFormat(PrintedFormat(p, v, 1)) == Format(ecl, mask)
    && (v >= 7 ==> FromBits(PrintedVersion(p, v, 0)) / 0x1000 == FromBits(PrintedVersion(p, v, 1)) / 0x1000 == v)
    && ReadStream(p, v, ecl, mask) == content
    && FaultFree(p, v, ecl, mask)
  }

  lemma PlacedLeavesFunction(g: Grid, v: int, bits: seq<bool>, h: Grid, y: int, x: int)
    requires IsVersion(v) && HasFunctionPattern(g, v) && IsGrid(h, Dimension(v)) && Inside(Dimension(v), y, x)
    requires |bits| <= |FreeOrder(g, Dimension(v))| && Placed(g, Dimension(v), bits, |bits|, h)
    requires IsFunctionModule(v, y, x)
    ensures At(h, Dimension(v), y, x) == At(g, Dimension(v), y, x)
  {
    hide IsFunctionModule, IsFunc, IsData, SetData, At, FreeOrder;
  }

  /** What was placed is what the reader reads. */
  lemma BitsOfPlaced(g: Grid, v: int, bits: seq<bool>, h: Grid, mask: nat, s: Grid, fmt: Word)
    requires IsVersion(v) && HasPattern(g, v) && IsGrid(h, Dimension(v)) && mask < MASKS
    requires |bits| == 8 * TotalWords(v) <= |FreeOrder(g, Dimension(v))|
    requires Placed(g, Dimension(v), bits, |bits|, h)
    requires InfoPrinted(MaskedGrid(h, Dimension(v), mask), s, v, fmt)
    ensures ReadBits(Colours(s), v, mask) == bits
  {
    PatternIsFunctionPattern(g, v);
    var d := Dimension(v);
    hide IsFunctionModule, IsFunc, IsData, IsBlack, SetData, At, FreeOrder, MaskedGrid, Placed, Colours, ColourAt, HasPattern,
         Flips, InfoPrinted, NoData, HasFunctionPattern, OnWalk, Dimension, TotalWords;
    WalkOfPattern(g, v);
    ReadPlaced(g, d, bits, h);
    PlacedKeepsFunction(g, d, bits, |bits|, h);
    forall i | 0 <= i < |bits| ensures ReadBits(Colours(s), v, mask)[i] == bits[i] {
      assert ReadData(h, d, |bits|)[i] == bits[i];
      BitOfPlaced(g, v, bits, h, mask, s, fmt, i);
    }
  }

  lemma BitOfPlaced(g: Grid, v: int, bits: seq<bool>, h: Grid, mask: nat, s: Grid, fmt: Word, i: nat)
    requires IsVersion(v) && HasFunctionPattern(g, v) && IsGrid(h, Dimension(v)) && mask < MASKS
    requires |bits| == 8 * TotalWords(v) <= |FreeOrder(g, Dimension(v))| && FreeOrder(g, Dimension(v)) == Walk(v)
    requires FreeOrder(h, Dimension(v)) == Walk(v) && i < |bits|
    requires InfoPrinted(MaskedGrid(h, Dimension(v), mask), s, v, fmt)
    ensures ReadBit(Colours(s), v, mask, Walk(v)[i]) == ReadData(h, Dimension(v), |bits|)[i]
  {
    hide IsFunctionModule, IsFunc, IsData, IsBlack, At, FreeOrder, MaskedGrid, Colours, ColourAt, Flips, Dimension, TotalWords,
         InfoInk, Walk, SetBlack;
    var d, c := Dimension(v), Walk(v)[i];
    WalkInside(d, c);
    var y, x := Y(d, c), X(d, c);
    assert FreeAt(g, d, c) && FreeAt(h, d, c);
    FunctionModuleAt(g, v, y, x);
    NoInfoOnFree(v, fmt, y, x);
    InfoAt(MaskedGrid(h, d, mask), s, v, fmt, y, x);
    ColourOf(s, v, y, x);
    MaskComesOff(h, d, mask, y, x);
  }

  lemma FunctionModuleAt(g: Grid, v: int, y: int, x: int)
    requires IsVersion(v) && HasFunctionPattern(g, v) && Inside(Dimension(v), y, x)
    ensures IsFunc(At(g, Dimension(v), y, x)) == IsFunctionModule(v, y, x)
  {
    hide IsFunctionModule, IsFunc, At;
  }

  lemma NoInfoOnFree(v: int, fmt: Word, y: int, x: int)
    requires IsVersion(v) && Inside(Dimension(v), y, x) && !IsFunctionModule(v, y, x)
    ensures !InfoInk(v, fmt, y, x)
  {
    hide VersionWord, BitOf, InAlignment, AlignmentCentres;
    if InVersionInfo(7, Dimension(v), y, x) {
    } else {
      NoVersionInkAt(Dimension(v), v, y, x);
    }
  }

  /** The whole way: placed, masked, labelled and printed code words say what went in. */
  lemma SymbolShows(g: Grid, v: int, ecl: nat, data: seq<bv8>, ec: seq<bv8>, code: seq<bv8>, h: Grid, mask: nat, s: Grid, fmt: Word,
                    content: seq<bool>)
    requires IsVersion(v) && ecl < 4 && mask < MASKS && |code| == TotalWords(v)
    requires LevelOf(v, ecl).dataWords <= |data| && TotalWords(v) - LevelOf(v, ecl).dataWords <= |ec|
    requires Fitting(LevelOf(v, ecl), TotalWords(v)) && Interleaved(code, data, ec, LevelOf(v, ecl), TotalWords(v))
    requires ReedSolomonFacts(data, ec, v, ecl)
    requires HasPattern(g, v) && IsGrid(h, Dimension(v)) && 8 * |code| <= |FreeOrder(g, Dimension(v))|
    requires Placed(g, Dimension(v), BitStream(code), 8 * |code|, h)
    requires InfoPrinted(MaskedGrid(h, Dimension(v), mask), s, v, fmt) && ReadFormat(fmt) == Format(ecl, mask)
    requires BitStream(data[..LevelOf(v, ecl).dataWords]) == content
    ensures Shows(Colours(s), v, ecl, mask, content)
  {
    hide *;
    WordsRead(g, v, code, h, mask, s, fmt);
    InfoRead(g, v, ecl, code, h, mask, s, fmt);
    DataPartOfInterleaved(data, ec, code, v, ecl);
    StreamRead(Colours(s), v, ecl, mask, code, data, content);
    BlocksRead(Colours(s), v, ecl, mask, code, data, ec);
    ShowsMeans(Colours(s), v, ecl, mask, content);
  }

  ghost predicate ReedSolomonFacts(data: seq<bv8>, ec: seq<bv8>, v: int, ecl: nat)
    requires IsVersion(v) && ecl < 4 && Fitting(LevelOf(v, ecl), TotalWords(v))
    requires LevelOf(v, ecl).dataWords <= |data| && TotalWords(v) - LevelOf(v, ecl).dataWords <= |ec|
  {
    && RS.IsGenerator(Syndromes.GeneratorRow(EcWords(LevelOf(v, ecl))))
    && Coded(data, ec, DataLengths(LevelOf(v, ecl)), EcLengths(LevelOf(v, ecl)),
             Syndromes.GeneratorRow(EcWords(LevelOf(v, ecl))), LevelOf(v, ecl).BlockCount())
  }

  lemma WordsRead(g: Grid, v: int, code: seq<bv8>, h: Grid, mask: nat, s: Grid, fmt: Word)
    requires IsVersion(v) && mask < MASKS && |code| == TotalWords(v)
    requires HasPattern(g, v) && IsGrid(h, Dimension(v)) && 8 * |code| <= |FreeOrder(g, Dimension(v))|
    requires Placed(g, Dimension(v), BitStream(code), 8 * |code|, h)
    requires InfoPrinted(MaskedGrid(h, Dimension(v), mask), s, v, fmt)
    ensures IsPrinted(Colours(s), v) && ReadWords(Colours(s), v, mask) == code
  {
    hide HasPattern, Placed, MaskedGrid, TotalWords, FreeOrder, At, SetBlack, InfoInk, BitStream, PackBytes, ReadBits;
    BitsOfPlaced(g, v, BitStream(code), h, mask, s, fmt);
    PackBitStream(code);
  }

  lemma InfoRead(g: Grid, v: int, ecl: nat, code: seq<bv8>, h: Grid, mask: nat, s: Grid, fmt: Word)
    requires IsVersion(v) && mask < MASKS && ecl < 4 && |code| == TotalWords(v)
    requires HasPattern(g, v) && IsGrid(h, Dimension(v)) && 8 * |code| <= |FreeOrder(g, Dimension(v))|
    requires Placed(g, Dimension(v), BitStream(code), 8 * |code|, h)
    requires InfoPrinted(MaskedGrid(h, Dimension(v), mask), s, v, fmt) && ReadFormat(fmt) == Format(ecl, mask)
    ensures IsPrinted(Colours(s), v)
    ensures ReadFormat(PrintedFormat(Colours(s), v, 0)) == ReadFormat(PrintedFormat(Colours(s), v, 1)) == Format(ecl, mask)
    ensures v >= 7 ==> FromBits(PrintedVersion(Colours(s), v, 0)) / 0x1000 == FromBits(PrintedVersion(Colours(s), v, 1)) / 0x1000 == v
  {
    PatternIsFunctionPattern(g, v);
    hide HasPattern, HasFunctionPattern, Placed, MaskedGrid, TotalWords, FreeOrder, At, SetBlack, InfoInk, BitStream, ReadFormat,
         PrintedFormat, PrintedVersion, IsFunctionModule, FromBits, ToBits, VersionWord;
    forall y, x | Inside(Dimension(v), y, x) && IsFunctionModule(v, y, x)
      ensures At(h, Dimension(v), y, x) == At(g, Dimension(v), y, x)
    {
      PlacedLeavesFunction(g, v, BitStream(code), h, y, x);
    }
    InfoReadable(g, h, mask, s, v, fmt);
    if v >= 7 {
      VersionWordSaysVersion(v);
      assert Pow2(18) == 0x40000 by { WidthPowers(); assert Pow2(18) == 4 * Pow2(16); }
      FromToBits(18, VersionWord(v));
    }
  }

  lemma StreamRead(p: Printed, v: int, ecl: nat, mask: nat, code: seq<bv8>, data: seq<bv8>, content: seq<bool>)
    requires IsVersion(v) && ecl < 4 && mask < MASKS && IsPrinted(p, v) && ReadWords(p, v, mask) == code
    requires LevelOf(v, ecl).dataWords <= |data| && DataPart(code, v, ecl) == data[..LevelOf(v, ecl).dataWords]
    requires BitStream(data[..LevelOf(v, ecl).dataWords]) == content
    ensures ReadStream(p, v, ecl, mask) == content
  {
    hide ReadWords, DataPart, BitStream, LevelOf, TotalWords;
  }

  lemma BlocksRead(p: Printed, v: int, ecl: nat, mask: nat, code: seq<bv8>, data: seq<bv8>, ec: seq<bv8>)
    requires IsVersion(v) && ecl < 4 && mask < MASKS && IsPrinted(p, v) && |code| == TotalWords(v) && ReadWords(p, v, mask) == code
    requires LevelOf(v, ecl).dataWords <= |data| && TotalWords(v) - LevelOf(v, ecl).dataWords <= |ec|
    requires Fitting(LevelOf(v, ecl), TotalWords(v)) && Interleaved(code, data, ec, LevelOf(v, ecl), TotalWords(v))
    requires ReedSolomonFacts(data, ec, v, ecl)
    ensures FaultFree(p, v, ecl, mask)
  {
    hide ReadWords, Interleaved, Coded, Syndromes.ValueAt, CodeBlock, LevelOf, TotalWords, Fitting, RS.IsGenerator, EcWords;
    forall b, i | 0 <= b < LevelOf(v, ecl).BlockCount() && 0 <= i < EcWords(LevelOf(v, ecl))
      ensures Syndromes.ValueAt(CodeBlock(ReadWords(p, v, mask), v, ecl, b), i) == 0
    {
      BlocksAreCodewords(data, ec, code, v, ecl, b, i);
    }
  }

  lemma ShowsMeans(p: Printed, v: int, ecl: nat, mask: nat, content: seq<bool>)
    requires IsVersion(v) && ecl < 4 && mask < MASKS && IsPrinted(p, v)
    requires ReadFormat(PrintedFormat(p, v, 0)) == ReadFormat(PrintedFormat(p, v, 1)) == Format(ecl, mask)
    requires v >= 7 ==> FromBits(PrintedVersion(p, v, 0)) / 0x1000 == FromBits(PrintedVersion(p, v, 1)) / 0x1000 == v
    requires ReadStream(p, v, ecl, mask) == content && FaultFree(p, v, ecl, mask)
    ensures Shows(p, v, ecl, mask, content)
  {
    hide ReadFormat, PrintedFormat, PrintedVersion, FromBits, ReadStream, FaultFree;
  }
}
