/**
 Format and version information (ISO/IEC 18004:2015, sections 7.9 and 7.10): error-correction level and mask are printed
 twice as a word of the (15,5) BCH code, so that a reader can tell how to go on.
 */
module FormatInfo {
  import opened Bits
  import opened Modules
  import opened Placement
  import opened VersionTable
  import opened FunctionPattern
  import opened PatternDrawing

  // ---- The format word ----

  /** A word of 15 bits; bit j is the coefficient of x^j. */
  type Word = w: seq<bool> | |w| == 15 witness seq(15, _ => false)

  function Xor(a: Word, b: Word): (r: Word)
    ensures forall j :: 0 <= j < 15 ==> r[j] == (a[j] != b[j])
  {
    seq(15, j requires 0 <= j < 15 => a[j] != b[j])
  }

  function Zero(): (r: Word)
    ensures forall j :: 0 <= j < 15 ==> !r[j]
  {
    seq(15, _ => false)
  }

  /** The generator 0x537, x^10 + x^8 + x^5 + x^4 + x^2 + x + 1, times x^k. */
  function Shifted(k: nat): (r: Word)
    requires k < 5
    ensures r[10 + k] && forall j :: 10 + k < j < 15 ==> !r[j]
  {
    seq(15, j => j - k == 0 || j - k == 1 || j - k == 2 || j - k == 4 || j - k == 5 || j - k == 8 || j - k == 10)
  }

  /** 0x5412 */
  function FormatMask(): Word {
    seq(15, j => j == 1 || j == 4 || j == 10 || j == 12 || j == 14)
  }

  /** The multiple of the generator by the polynomial with coefficients q, x^4 first. */
  function Multiple(q: seq<bool>): Word
    requires |q| <= 5
  {
    if q == [] then Zero()
    else if q[|q| - 1] then Xor(Multiple(q[..|q| - 1]), Shifted(5 - |q|))
    else Multiple(q[..|q| - 1])
  }

  ghost predicate IsCodeWord(w: Word) {
    exists q: seq<bool> :: |q| == 5 && w == Multiple(q)
  }

  /** The five data bits: mask in the lower three, then the level (L 01, M 00, Q 11, H 10). */
  predicate DataBit(ecl: nat, mask: nat, k: nat)
    requires ecl < 4 && mask < 8 && k < 5
  {
    match k
    case 0 => mask % 2 == 1
    case 1 => mask / 2 % 2 == 1
    case 2 => mask >= 4
    case 3 => ecl == 0 || ecl == 2
    case _ => ecl >= 2
  }

  lemma MultipleNext(q: seq<bool>, b: bool)
    requires |q| < 5
    ensures Multiple(q + [b]) == if b then Xor(Multiple(q), Shifted(4 - |q|)) else Multiple(q)
  {
    hide Xor, Shifted;
    assert (q + [b])[..|q|] == q;
  }

  /** The data bits above, and the remainder of their division by the generator below; the whole masked. */
  method FormatWord(ecl: nat, mask: nat) returns (fmt: Word)
    requires ecl < 4 && mask < 8
    ensures IsCodeWord(Xor(fmt, FormatMask())) && IsFormatWord(fmt, ecl, mask)
    ensures forall k :: 0 <= k < 5 ==> Xor(fmt, FormatMask())[10 + k] == DataBit(ecl, mask, k)
  {
    hide DataBit, Multiple, Shifted, Xor, FormatMask, IsFormatWord;
    var data: Word := seq(15, j requires 0 <= j < 15 => j >= 10 && DataBit(ecl, mask, j - 10));
    var modulo := data;
    ghost var q: seq<bool> := [];
    StartOfDivision(data);
    for i := 0 to 5
      invariant |q| == i && Xor(data, modulo) == Multiple(q)
      invariant forall j :: 15 - i <= j < 15 ==> !modulo[j]
    {
      ghost var before := modulo;
      var lead := modulo[14 - i];
      if lead {
        modulo := Xor(modulo, Shifted(4 - i));
        XorMoves(data, before, Shifted(4 - i));
      }
      MultipleNext(q, lead);
      q := q + [lead];
    }
    var word: Word := seq(15, j requires 0 <= j < 15 => data[j] || modulo[j]);
    assert word == Xor(data, modulo);
    fmt := Xor(word, FormatMask());
    XorTwice(word, FormatMask());
    assert IsCodeWord(word);
    FormatWordIsOfTable(ecl, mask, fmt);
  }

  lemma StartOfDivision(data: Word)
    ensures Xor(data, data) == Multiple([])
  {
  }

  lemma XorMoves(a: Word, b: Word, c: Word)
    ensures Xor(a, Xor(b, c)) == Xor(Xor(a, b), c)
  {
  }

  lemma XorTwice(a: Word, b: Word)
    ensures Xor(Xor(a, b), b) == a
  {
  }

  /** Level and mask as a reader gets them from the upper five bits. */
  datatype Format = Format(ecl: nat, mask: nat)

  function ReadFormat(w: Word): (f: Format)
    ensures f.ecl < 4 && f.mask < 8
  {
    var five := Xor(w, FormatMask());
    Format((if five[14] then 2 else 0) + (if five[13] then 0 else 1),
           (if five[12] then 4 else 0) + (if five[11] then 2 else 0) + (if five[10] then 1 else 0))
  }

  lemma ReadFormatOfWord(ecl: nat, mask: nat, fmt: Word)
    requires ecl < 4 && mask < 8
    requires forall k :: 0 <= k < 5 ==> Xor(fmt, FormatMask())[10 + k] == DataBit(ecl, mask, k)
    ensures ReadFormat(fmt) == Format(ecl, mask)
  {
    var five := Xor(fmt, FormatMask());
    assert five[10 + 0] == DataBit(ecl, mask, 0) && five[10 + 1] == DataBit(ecl, mask, 1) && five[10 + 2] == DataBit(ecl, mask, 2);
    assert five[10 + 3] == DataBit(ecl, mask, 3) && five[10 + 4] == DataBit(ecl, mask, 4);
  }

  // ---- The format words of the standard ----

  // All words by level and mask, as they are printed (annex C of the standard).

  const FORMAT_L: seq<string> := [
    "111011111000100", "111001011110011", "111110110101010", "111100010011101",
    "110011000101111", "110001100011000", "110110001000001", "110100101110110"]
  const FORMAT_M: seq<string> := [
    "101010000010010", "101000100100101", "101111001111100", "101101101001011",
    "100010111111001", "100000011001110", "100111110010111", "100101010100000"]
  const FORMAT_Q: seq<string> := [
    "011010101011111", "011000001101000", "011111100110001", "011101000000110",
    "010010010110100", "010000110000011", "010111011011010", "010101111101101"]
  const FORMAT_H: seq<string> := [
    "001011010001001", "001001110111110", "001110011100111", "001100111010000",
    "000011101100010", "000001001010101", "000110100001100", "000100000111011"]

  function FormatTable(ecl: nat): (row: seq<string>)
    requires ecl < 4
    ensures |row| == 8 && forall k :: 0 <= k < 8 ==> |row[k]| == 15
  {
    match ecl
    case 0 => FORMAT_L
    case 1 => FORMAT_M
    case 2 => FORMAT_Q
    case 3 => FORMAT_H
  }

  predicate IsWord(w: Word, s: string)
    requires |s| == 15
  {
    forall j :: 0 <= j < 15 ==> w[j] == (s[14 - j] == '1')
  }

  /** The word is the one of the table, its highest bit first. */
  predicate IsFormatWord(fmt: Word, ecl: nat, mask: nat)
    requires ecl < 4 && mask < 8
  {
    IsWord(fmt, FormatTable(ecl)[mask])
  }

  /** The lower bits of a code word follow from its upper five. */
  predicate Checks(w: Word) {
    && w[0] == ((w[10] != w[12]) != w[14]) && w[1] == ((((w[10] != w[11]) != w[12]) != w[13]) != w[14])
    && w[2] == ((w[10] != w[11]) != w[13]) && w[3] == ((w[11] != w[12]) != w[14])
    && w[4] == ((w[10] != w[13]) != w[14]) && w[5] == ((w[10] != w[11]) != w[12])
    && w[6] == ((w[11] != w[12]) != w[13]) && w[7] == ((w[12] != w[13]) != w[14])
    && w[8] == ((w[10] != w[12]) != w[13]) && w[9] == ((w[11] != w[13]) != w[14])
  }

  lemma {:induction false} CodeWordChecks(q: seq<bool>)
    requires |q| <= 5
    ensures Checks(Multiple(q))
  {
    hide Checks, Xor, Shifted, Zero;
    if q == [] {
      ZeroChecks();
    } else {
      CodeWordChecks(q[..|q| - 1]);
      ShiftedChecks(5 - |q|);
      SumChecks(Multiple(q[..|q| - 1]), Shifted(5 - |q|));
    }
  }

  lemma ZeroChecks()
    ensures Checks(Zero())
  {
  }

  lemma ShiftedChecks(k: nat)
    requires k < 5
    ensures Checks(Shifted(k))
  {
  }

  lemma SumChecks(a: Word, b: Word)
    requires Checks(a) && Checks(b)
    ensures Checks(Xor(a, b))
  {
  }

  /** A masked code word with level and mask on top is the one of the table. */
  lemma FormatWordIsOfTable(ecl: nat, mask: nat, fmt: Word)
    requires ecl < 4 && mask < 8 && IsCodeWord(Xor(fmt, FormatMask()))
    requires forall k :: 0 <= k < 5 ==> Xor(fmt, FormatMask())[10 + k] == DataBit(ecl, mask, k)
    ensures IsFormatWord(fmt, ecl, mask)
  {
    var w := Xor(fmt, FormatMask());
    var q: seq<bool> :| |q| == 5 && w == Multiple(q);
    CodeWordChecks(q);
    UpperBits(w, ecl, mask);
    XorTwice(fmt, FormatMask());
    hide *;
    TableIs();
    if ecl == 0 { TableRowL(mask, w); } else if ecl == 1 { TableRowM(mask, w); }
    else if ecl == 2 { TableRowQ(mask, w); } else { TableRowH(mask, w); }
    FormatWordIs(ecl, mask, fmt);
  }

  lemma TableIs()
    ensures FormatTable(0) == FORMAT_L && FormatTable(1) == FORMAT_M && FormatTable(2) == FORMAT_Q && FormatTable(3) == FORMAT_H
  {
  }

  lemma FormatWordIs(ecl: nat, mask: nat, fmt: Word)
    requires ecl < 4 && mask < 8 && IsWord(fmt, FormatTable(ecl)[mask])
    ensures IsFormatWord(fmt, ecl, mask)
  {
  }

  predicate HasUpperBits(w: Word, ecl: nat, mask: nat) {
    && w[14] == (ecl >= 2) && w[13] == (ecl == 0 || ecl == 2)
    && w[12] == (mask >= 4) && w[11] == (mask / 2 % 2 == 1) && w[10] == (mask % 2 == 1)
  }

  lemma UpperBits(w: Word, ecl: nat, mask: nat)
    requires ecl < 4 && mask < 8 && forall k :: 0 <= k < 5 ==> w[10 + k] == DataBit(ecl, mask, k)
    ensures HasUpperBits(w, ecl, mask)
  {
    assert w[10 + 0] == DataBit(ecl, mask, 0) && w[10 + 1] == DataBit(ecl, mask, 1) && w[10 + 2] == DataBit(ecl, mask, 2);
    assert w[10 + 3] == DataBit(ecl, mask, 3) && w[10 + 4] == DataBit(ecl, mask, 4);
  }

  lemma TableRowLA(mask: nat, w: Word)
    requires 0 <= mask < 4 && Checks(w) && HasUpperBits(w, 0, mask)
    ensures |FORMAT_L| == 8 && |FORMAT_L[mask]| == 15 && IsWord(Xor(w, FormatMask()), FORMAT_L[mask])
  {
    if mask == 0 {} else if mask == 1 {} else if mask == 2 {} else {}
  }

  lemma TableRowLB(mask: nat, w: Word)
    requires 4 <= mask < 8 && Checks(w) && HasUpperBits(w, 0, mask)
    ensures |FORMAT_L| == 8 && |FORMAT_L[mask]| == 15 && IsWord(Xor(w, FormatMask()), FORMAT_L[mask])
  {
    if mask == 4 {} else if mask == 5 {} else if mask == 6 {} else {}
  }

  lemma TableRowL(mask: nat, w: Word)
    requires mask < 8 && Checks(w) && HasUpperBits(w, 0, mask)
    ensures |FORMAT_L| == 8 && |FORMAT_L[mask]| == 15 && IsWord(Xor(w, FormatMask()), FORMAT_L[mask])
  {
    hide *;
    if mask < 4 { TableRowLA(mask, w); } else { TableRowLB(mask, w); }
  }

  lemma TableRowMA(mask: nat, w: Word)
    requires 0 <= mask < 4 && Checks(w) && HasUpperBits(w, 1, mask)
    ensures |FORMAT_M| == 8 && |FORMAT_M[mask]| == 15 && IsWord(Xor(w, FormatMask()), FORMAT_M[mask])
  {
    if mask == 0 {} else if mask == 1 {} else if mask == 2 {} else {}
  }

  lemma TableRowMB(mask: nat, w: Word)
    requires 4 <= mask < 8 && Checks(w) && HasUpperBits(w, 1, mask)
    ensures |FORMAT_M| == 8 && |FORMAT_M[mask]| == 15 && IsWord(Xor(w, FormatMask()), FORMAT_M[mask])
  {
    if mask == 4 {} else if mask == 5 {} else if mask == 6 {} else {}
  }

  lemma TableRowM(mask: nat, w: Word)
    requires mask < 8 && Checks(w) && HasUpperBits(w, 1, mask)
    ensures |FORMAT_M| == 8 && |FORMAT_M[mask]| == 15 && IsWord(Xor(w, FormatMask()), FORMAT_M[mask])
  {
    hide *;
    if mask < 4 { TableRowMA(mask, w); } else { TableRowMB(mask, w); }
  }

  lemma TableRowQA(mask: nat, w: Word)
    requires 0 <= mask < 4 && Checks(w) && HasUpperBits(w, 2, mask)
    ensures |FORMAT_Q| == 8 && |FORMAT_Q[mask]| == 15 && IsWord(Xor(w, FormatMask()), FORMAT_Q[mask])
  {
    if mask == 0 {} else if mask == 1 {} else if mask == 2 {} else {}
  }

  lemma TableRowQB(mask: nat, w: Word)
    requires 4 <= mask < 8 && Checks(w) && HasUpperBits(w, 2, mask)
    ensures |FORMAT_Q| == 8 && |FORMAT_Q[mask]| == 15 && IsWord(Xor(w, FormatMask()), FORMAT_Q[mask])
  {
    if mask == 4 {} else if mask == 5 {} else if mask == 6 {} else {}
  }

  lemma TableRowQ(mask: nat, w: Word)
    requires mask < 8 && Checks(w) && HasUpperBits(w, 2, mask)
    ensures |FORMAT_Q| == 8 && |FORMAT_Q[mask]| == 15 && IsWord(Xor(w, FormatMask()), FORMAT_Q[mask])
  {
    hide *;
    if mask < 4 { TableRowQA(mask, w); } else { TableRowQB(mask, w); }
  }

  lemma TableRowHA(mask: nat, w: Word)
    requires 0 <= mask < 4 && Checks(w) && HasUpperBits(w, 3, mask)
    ensures |FORMAT_H| == 8 && |FORMAT_H[mask]| == 15 && IsWord(Xor(w, FormatMask()), FORMAT_H[mask])
  {
    if mask == 0 {} else if mask == 1 {} else if mask == 2 {} else {}
  }

  lemma TableRowHB(mask: nat, w: Word)
    requires 4 <= mask < 8 && Checks(w) && HasUpperBits(w, 3, mask)
    ensures |FORMAT_H| == 8 && |FORMAT_H[mask]| == 15 && IsWord(Xor(w, FormatMask()), FORMAT_H[mask])
  {
    if mask == 4 {} else if mask == 5 {} else if mask == 6 {} else {}
  }

  lemma TableRowH(mask: nat, w: Word)
    requires mask < 8 && Checks(w) && HasUpperBits(w, 3, mask)
    ensures |FORMAT_H| == 8 && |FORMAT_H[mask]| == 15 && IsWord(Xor(w, FormatMask()), FORMAT_H[mask])
  {
    hide *;
    if mask < 4 { TableRowHA(mask, w); } else { TableRowHB(mask, w); }
  }

  // ---- Version information ----

  /** The 18-bit words; versions below 7 have none. */
  function VersionWord(v: int): nat
    requires 7 <= v <= MAX_VERSION
  {
    match v
    case 7 => 0x07c94 case 8 => 0x085bc case 9 => 0x09a99 case 10 => 0x0a4d3 case 11 => 0x0bbf6
    case 12 => 0x0c762 case 13 => 0x0d847 case 14 => 0x0e60d case 15 => 0x0f928 case 16 => 0x10b78 case 17 => 0x1145d
    case 18 => 0x12a17 case 19 => 0x13532 case 20 => 0x149a6 case 21 => 0x15683 case 22 => 0x168c9 case 23 => 0x177ec
    case 24 => 0x18ec4 case 25 => 0x191e1 case 26 => 0x1afab case 27 => 0x1b08e case 28 => 0x1cc1a case 29 => 0x1d33f
    case 30 => 0x1ed75 case 31 => 0x1f250 case 32 => 0x209d5 case 33 => 0x216f0 case 34 => 0x228ba case 35 => 0x2379f
    case 36 => 0x24b0b case 37 => 0x2542e case 38 => 0x26a64 case 39 => 0x27541 case _ => 0x28c69
  }

  /** The upper six bits of a version word are the version. */
  lemma VersionWordSaysVersion(v: int)
    requires 7 <= v <= MAX_VERSION
    ensures VersionWord(v) < 0x40000 && VersionWord(v) / 0x1000 == v
  {
  }

  predicate Unit(w: nat, unit: nat)
    requires unit > 0
  {
    w / unit % 2 == 1
  }

  /** The check bits of a multiple of the generator 0x1f25, x^12 + x^11 + x^10 + x^9 + x^8 + x^5 + x^2 + 1. */
  predicate VersionChecks(w: nat) {
    && Unit(w, 0x1) == ((Unit(w, 0x1000) != Unit(w, 0x2000)) != Unit(w, 0x20000))
    && Unit(w, 0x2) == (Unit(w, 0x2000) != Unit(w, 0x4000))
    && Unit(w, 0x4) == ((((Unit(w, 0x1000) != Unit(w, 0x2000)) != Unit(w, 0x4000)) != Unit(w, 0x8000)) != Unit(w, 0x20000))
    && Unit(w, 0x8) == (((Unit(w, 0x2000) != Unit(w, 0x4000)) != Unit(w, 0x8000)) != Unit(w, 0x10000))
    && Unit(w, 0x10) == (((Unit(w, 0x4000) != Unit(w, 0x8000)) != Unit(w, 0x10000)) != Unit(w, 0x20000))
    && Unit(w, 0x20) == (((Unit(w, 0x1000) != Unit(w, 0x2000)) != Unit(w, 0x8000)) != Unit(w, 0x10000))
    && Unit(w, 0x40) == (((Unit(w, 0x2000) != Unit(w, 0x4000)) != Unit(w, 0x10000)) != Unit(w, 0x20000))
    && Unit(w, 0x80) == ((Unit(w, 0x4000) != Unit(w, 0x8000)) != Unit(w, 0x20000))
    && Unit(w, 0x100) == ((((Unit(w, 0x1000) != Unit(w, 0x2000)) != Unit(w, 0x8000)) != Unit(w, 0x10000)) != Unit(w, 0x20000))
    && Unit(w, 0x200) == ((Unit(w, 0x1000) != Unit(w, 0x4000)) != Unit(w, 0x10000))
    && Unit(w, 0x400) == (Unit(w, 0x1000) != Unit(w, 0x8000))
    && Unit(w, 0x800) == ((Unit(w, 0x1000) != Unit(w, 0x10000)) != Unit(w, 0x20000))
  }

  lemma VersionWordsFrom7(v: int)
    requires 7 <= v <= 12
    ensures VersionChecks(VersionWord(v))
  {
    if v == 7 {} else if v == 8 {} else if v == 9 {} else if v == 10 {} else if v == 11 {} else {}
  }

  lemma VersionWordsFrom13(v: int)
    requires 13 <= v <= 18
    ensures VersionChecks(VersionWord(v))
  {
    if v == 13 {} else if v == 14 {} else if v == 15 {} else if v == 16 {} else if v == 17 {} else {}
  }

  lemma VersionWordsFrom19(v: int)
    requires 19 <= v <= 24
    ensures VersionChecks(VersionWord(v))
  {
    if v == 19 {} else if v == 20 {} else if v == 21 {} else if v == 22 {} else if v == 23 {} else {}
  }

  lemma VersionWordsFrom25(v: int)
    requires 25 <= v <= 30
    ensures VersionChecks(VersionWord(v))
  {
    if v == 25 {} else if v == 26 {} else if v == 27 {} else if v == 28 {} else if v == 29 {} else {}
  }

  lemma VersionWordsFrom31(v: int)
    requires 31 <= v <= 36
    ensures VersionChecks(VersionWord(v))
  {
    if v == 31 {} else if v == 32 {} else if v == 33 {} else if v == 34 {} else if v == 35 {} else {}
  }

  lemma VersionWordsFrom37(v: int)
    requires 37 <= v <= 40
    ensures VersionChecks(VersionWord(v))
  {
    if v == 37 {} else if v == 38 {} else if v == 39 {} else {}
  }

  /** Below the version, every version word has the check bits of the (18,6) code. */
  lemma VersionWordIsCodeWord(v: int)
    requires 7 <= v <= MAX_VERSION
    ensures VersionChecks(VersionWord(v))
  {
    hide VersionWord, VersionChecks;
    if v <= 12 { VersionWordsFrom7(v); } else if v <= 18 { VersionWordsFrom13(v); } else if v <= 24 { VersionWordsFrom19(v); }
    else if v <= 30 { VersionWordsFrom25(v); } else if v <= 36 { VersionWordsFrom31(v); } else { VersionWordsFrom37(v); }
  }

  // ---- Printing ----

  /** after is before with the modules of s made dark. */
  ghost predicate Inked(before: Grid, after: Grid, d: nat, s: set<Cell>) {
    && IsGrid(before, d) && IsGrid(after, d)
    && forall y, x :: Inside(d, y, x) ==>
         At(after, d, y, x) == if (y, x) in s then SetBlack(At(before, d, y, x)) else At(before, d, y, x)
  }

  lemma SetBlackTwice(m: bv8)
    ensures SetBlack(SetBlack(m)) == SetBlack(m)
  {
  }

  /** `symbol[y][x] |= QR_MM_BLACK` */
  method Ink(symbol: array<bv8>, d: nat, y: int, x: int, ghost before: Grid, ghost s: set<Cell>) returns (ghost s': set<Cell>)
    requires Inked(before, symbol[..], d, s) && Inside(d, y, x)
    modifies symbol
    ensures s' == s + {(y, x)} && Inked(before, symbol[..], d, s')
  {
    hide SetBlack, At;
    ghost var g := symbol[..];
    IndexInside(d, y, x);
    symbol[y * d + x] := SetBlack(symbol[y * d + x]);
    s' := s + {(y, x)};
    InkOne(before, g, symbol[..], d, s, y, x);
  }

  lemma InkOne(before: Grid, g: Grid, h: Grid, d: nat, s: set<Cell>, y: int, x: int)
    requires Inked(before, g, d, s) && Inside(d, y, x) && 0 <= Index(d, y, x) < |g|
    requires h == g[Index(d, y, x) := SetBlack(g[Index(d, y, x)])]
    ensures Inked(before, h, d, s + {(y, x)})
  {
    SetBlackTwice(At(before, d, y, x));
    hide SetBlack, At, Put;
    PutMeans(g, d, y, x, h);
    forall v, u | Inside(d, v, u)
      ensures At(h, d, v, u) == if (v, u) in s + {(y, x)} then SetBlack(At(before, d, v, u)) else At(before, d, v, u)
    {
      PutAt(g, d, y, x, SetBlack(At(g, d, y, x)), v, u);
    }
  }

  lemma PutMeans(g: Grid, d: nat, y: int, x: int, h: Grid)
    requires IsGrid(g, d) && Inside(d, y, x) && 0 <= Index(d, y, x) < |g|
    requires h == g[Index(d, y, x) := SetBlack(g[Index(d, y, x)])]
    ensures h == Put(g, d, y, x, SetBlack(At(g, d, y, x)))
  {
    hide SetBlack;
  }

  /** Dark modules of copies before c of the format word, and of its bits before j in copy c. */
  ghost predicate FormatInk(d: nat, fmt: Word, c: int, j: int, y: int, x: int) {
    exists i, k :: 0 <= i < 2 && 0 <= k < 15 && (i < c || (i == c && k < j)) && fmt[k] && FormatCell(d, i, k) == (y, x)
  }

  ghost predicate VersionInk(d: nat, v: int, c: int, j: int, y: int, x: int) {
    && 7 <= v <= MAX_VERSION
    && exists i, k :: 0 <= i < 2 && 0 <= k < 18 && (i < c || (i == c && k < j)) && BitOf(VersionWord(v), k)
                      && VersionCell(d, i, k) == (y, x)
  }

  method InkFormat(symbol: array<bv8>, d: nat, fmt: Word, ghost before: Grid) returns (ghost s: set<Cell>)
    requires d >= 21 && symbol[..] == before && IsGrid(before, d)
    modifies symbol
    ensures Inked(before, symbol[..], d, s)
    ensures forall y, x :: (y, x) in s <==> FormatInk(d, fmt, 2, 0, y, x)
  {
    s := {};
    hide At, SetBlack;
    for i := 0 to 2
      invariant Inked(before, symbol[..], d, s)
      invariant forall y, x :: (y, x) in s <==> FormatInk(d, fmt, i, 0, y, x)
    {
      for j := 0 to 15
        invariant Inked(before, symbol[..], d, s)
        invariant forall y, x :: (y, x) in s <==> FormatInk(d, fmt, i, j, y, x)
      {
        hide Inked;
        ghost var so := s;
        if fmt[j] {
          var (ypos, xpos) := FormatCell(d, i, j);
          s := Ink(symbol, d, ypos, xpos, before, s);
        }
        forall y, x ensures (y, x) in s <==> FormatInk(d, fmt, i, j + 1, y, x) {
          NextFormatInk(d, fmt, i, j, y, x);
          hide FormatInk;
        }
      }
      forall y, x ensures (y, x) in s <==> FormatInk(d, fmt, i + 1, 0, y, x) {
        NextFormatCopy(d, fmt, i, y, x);
        hide FormatInk;
      }
    }
  }

  lemma NextFormatInk(d: nat, fmt: Word, c: nat, j: nat, y: int, x: int)
    requires c < 2 && j < 15
    ensures FormatInk(d, fmt, c, j + 1, y, x) <==> FormatInk(d, fmt, c, j, y, x) || (fmt[j] && FormatCell(d, c, j) == (y, x))
  {
  }

  lemma NextFormatCopy(d: nat, fmt: Word, c: nat, y: int, x: int)
    ensures FormatInk(d, fmt, c, 15, y, x) <==> FormatInk(d, fmt, c + 1, 0, y, x)
  {
  }

  method InkVersion(symbol: array<bv8>, d: nat, v: int, ghost before: Grid, ghost s: set<Cell>) returns (ghost s': set<Cell>)
    requires d >= 21 && 7 <= v <= MAX_VERSION && Inked(before, symbol[..], d, s)
    modifies symbol
    ensures Inked(before, symbol[..], d, s')
    ensures forall y, x :: (y, x) in s' <==> (y, x) in s || VersionInk(d, v, 2, 0, y, x)
  {
    s' := s;
    hide At, SetBlack, Inked, VersionWord;
    for i := 0 to 2
      invariant Inked(before, symbol[..], d, s')
      invariant forall y, x :: (y, x) in s' <==> (y, x) in s || VersionInk(d, v, i, 0, y, x)
    {
      for j := 0 to 18
        invariant Inked(before, symbol[..], d, s')
        invariant forall y, x :: (y, x) in s' <==> (y, x) in s || VersionInk(d, v, i, j, y, x)
      {
        if BitOf(VersionWord(v), j) {
          var (ypos, xpos) := VersionCell(d, i, j);
          s' := Ink(symbol, d, ypos, xpos, before, s');
        }
        forall y, x ensures (y, x) in s' <==> (y, x) in s || VersionInk(d, v, i, j + 1, y, x) {
          NextVersionInk(d, v, i, j, y, x);
          hide VersionInk;
        }
      }
      forall y, x ensures (y, x) in s' <==> (y, x) in s || VersionInk(d, v, i + 1, 0, y, x) {
        NextVersionCopy(d, v, i, y, x);
        hide VersionInk;
      }
    }
  }

  lemma NextVersionInk(d: nat, v: int, c: nat, j: nat, y: int, x: int)
    requires c < 2 && j < 18 && 7 <= v <= MAX_VERSION
    ensures VersionInk(d, v, c, j + 1, y, x) <==>
            VersionInk(d, v, c, j, y, x) || (BitOf(VersionWord(v), j) && VersionCell(d, c, j) == (y, x))
  {
    hide VersionWord, BitOf;
  }

  lemma NextVersionCopy(d: nat, v: int, c: nat, y: int, x: int)
    ensures VersionInk(d, v, c, 18, y, x) <==> VersionInk(d, v, c + 1, 0, y, x)
  {
    hide VersionWord, BitOf;
  }

  /** All modules made dark: the format word twice, the module that always is, and the version word twice. */
  ghost predicate InfoInk(v: int, fmt: Word, y: int, x: int)
    requires IsVersion(v)
  {
    || FormatInk(Dimension(v), fmt, 2, 0, y, x)
    || (y == Dimension(v) - 8 && x == 8)
    || VersionInk(Dimension(v), v, 2, 0, y, x)
  }

  ghost predicate InfoPrinted(before: Grid, after: Grid, v: int, fmt: Word)
    requires IsVersion(v)
  {
    && IsGrid(before, Dimension(v)) && IsGrid(after, Dimension(v))
    && forall y, x :: Inside(Dimension(v), y, x) ==>
         At(after, Dimension(v), y, x) ==
         if InfoInk(v, fmt, y, x) then SetBlack(At(before, Dimension(v), y, x)) else At(before, Dimension(v), y, x)
  }

  method FillFormatInfo(symbol: array<bv8>, v: int, ecl: nat, mask: nat) returns (ghost fmt: Word)
    requires IsVersion(v) && ecl < 4 && mask < 8 && IsGrid(symbol[..], Dimension(v))
    modifies symbol
    ensures InfoPrinted(old(symbol[..]), symbol[..], v, fmt)
    ensures ReadFormat(fmt) == Format(ecl, mask) && IsCodeWord(Xor(fmt, FormatMask())) && IsFormatWord(fmt, ecl, mask)
  {
    hide IsFormatWord, IsCodeWord, FormatMask, Xor, ReadFormat, At, SetBlack, Inked, FormatInk, VersionInk;
    ghost var before := symbol[..];
    var d := Dimension(v);
    var word := FormatWord(ecl, mask);
    fmt := word;
    ReadFormatOfWord(ecl, mask, word);
    ghost var s := InkFormat(symbol, d, word, before);
    s := Ink(symbol, d, d - 8, 8, before, s);
    if v >= 7 {
      s := InkVersion(symbol, d, v, before, s);
    } else {
      NoVersionInk(d, v);
    }
    AllPrinted(before, symbol[..], v, word, s);
  }

  lemma NoVersionInk(d: nat, v: int)
    requires v < 7
    ensures forall y, x :: !VersionInk(d, v, 2, 0, y, x)
  {
  }

  lemma AllPrinted(before: Grid, after: Grid, v: int, fmt: Word, s: set<Cell>)
    requires IsVersion(v) && Inked(before, after, Dimension(v), s)
    requires forall y, x :: (y, x) in s <==> InfoInk(v, fmt, y, x)
    ensures InfoPrinted(before, after, v, fmt)
  {
    hide At, SetBlack, InfoInk;
  }
}
