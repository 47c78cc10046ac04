/** The version table (ISO/IEC 18004:2015, tables 1, 3 and 9): sizes, count widths and error-correction blocks. */
module VersionTable {
  import opened Bits
  import opened Segments

  const MAX_VERSION := 40
  const MAX_DATA_WORDS := 2956
  const MAX_EC_WORDS := 2430
  const MAX_CODE_WORDS := 3706
  const MAX_BLOCK_DATA := 123
  const MAX_BLOCK_EC := 68

  /** Blocks of one error-correction level: n1 blocks of d1 data words in t1, then n2 (maybe none) of d2 in t2. */
  datatype Level = Level(dataWords: nat, n1: nat, t1: nat, d1: nat, n2: nat, t2: nat, d2: nat) {
    function BlockCount(): nat { n1 + n2 }
  }

  predicate IsVersion(v: int) { 1 <= v <= MAX_VERSION }

  function Dimension(v: int): (d: nat)
    requires IsVersion(v)
    ensures 21 <= d <= 177 && d % 4 == 1
  {
    17 + 4 * v
  }

  function Widths(v: int): CountWidths
    requires IsVersion(v)
  {
    if v <= 9 then CountWidths(10, 9, 8, 8)
    else if v <= 26 then CountWidths(12, 11, 16, 10)
    else CountWidths(14, 13, 16, 12)
  }

  /** Code words of a symbol, the bits left over after them, and the four error-correction levels. */
  datatype Row = Row(totalWords: nat, remainder: nat, l: Level, m: Level, q: Level, h: Level) {
    function Level(ecl: nat): Level {
      if ecl == 0 then l else if ecl == 1 then m else if ecl == 2 then q else h
    }
  }

  function RowOf(v: int): Row
    requires IsVersion(v)
  {
    match v
    case 1 => Row(26, 0, Level(19, 1, 26, 19, 0, 0, 0), Level(16, 1, 26, 16, 0, 0, 0), Level(13, 1, 26, 13, 0, 0, 0), Level(9, 1, 26, 9, 0, 0, 0))
    case 2 => Row(44, 7, Level(34, 1, 44, 34, 0, 0, 0), Level(28, 1, 44, 28, 0, 0, 0), Level(22, 1, 44, 22, 0, 0, 0), Level(16, 1, 44, 16, 0, 0, 0))
    case 3 => Row(70, 7, Level(55, 1, 70, 55, 0, 0, 0), Level(44, 1, 70, 44, 0, 0, 0), Level(34, 2, 35, 17, 0, 0, 0), Level(26, 2, 35, 13, 0, 0, 0))
    case 4 => Row(100, 7, Level(80, 1, 100, 80, 0, 0, 0), Level(64, 2, 50, 32, 0, 0, 0), Level(48, 2, 50, 24, 0, 0, 0), Level(36, 4, 25, 9, 0, 0, 0))
    case 5 => Row(134, 7, Level(108, 1, 134, 108, 0, 0, 0), Level(86, 2, 67, 43, 0, 0, 0), Level(62, 2, 33, 15, 2, 34, 16), Level(46, 2, 33, 11, 2, 34, 12))
    case 6 => Row(172, 7, Level(136, 2, 86, 68, 0, 0, 0), Level(108, 4, 43, 27, 0, 0, 0), Level(76, 4, 43, 19, 0, 0, 0), Level(60, 4, 43, 15, 0, 0, 0))
    case 7 => Row(196, 0, Level(156, 2, 98, 78, 0, 0, 0), Level(124, 4, 49, 31, 0, 0, 0), Level(88, 2, 32, 14, 4, 33, 15), Level(66, 4, 39, 13, 1, 40, 14))
    case 8 => Row(242, 0, Level(194, 2, 121, 97, 0, 0, 0), Level(154, 2, 60, 38, 2, 61, 39), Level(110, 4, 40, 18, 2, 41, 19), Level(86, 4, 40, 14, 2, 41, 15))
    case 9 => Row(292, 0, Level(232, 2, 146, 116, 0, 0, 0), Level(182, 3, 58, 36, 2, 59, 37), Level(132, 4, 36, 16, 4, 37, 17), Level(100, 4, 36, 12, 4, 37, 13))
    case 10 => Row(346, 0, Level(274, 2, 86, 68, 2, 87, 69), Level(216, 4, 69, 43, 1, 70, 44), Level(154, 6, 43, 19, 2, 44, 20), Level(122, 6, 43, 15, 2, 44, 16))
    case 11 => Row(404, 0, Level(324, 4, 101, 81, 0, 0, 0), Level(254, 1, 80, 50, 4, 81, 51), Level(180, 4, 50, 22, 4, 51, 23), Level(140, 3, 36, 12, 8, 37, 13))
    case 12 => Row(466, 0, Level(370, 2, 116, 92, 2, 117, 93), Level(290, 6, 58, 36, 2, 59, 37), Level(206, 4, 46, 20, 6, 47, 21), Level(158, 7, 42, 14, 4, 43, 15))
    case 13 => Row(532, 0, Level(428, 4, 133, 107, 0, 0, 0), Level(334, 8, 59, 37, 1, 60, 38), Level(244, 8, 44, 20, 4, 45, 21), Level(180, 12, 33, 11, 4, 34, 12))
    case 14 => Row(581, 3, Level(461, 3, 145, 115, 1, 146, 116), Level(365, 4, 64, 40, 5, 65, 41), Level(261, 11, 36, 16, 5, 37, 17), Level(197, 11, 36, 12, 5, 37, 13))
    case 15 => Row(655, 3, Level(523, 5, 109, 87, 1, 110, 88), Level(415, 5, 65, 41, 5, 66, 42), Level(295, 5, 54, 24, 7, 55, 25), Level(223, 11, 36, 12, 7, 37, 13))
    case 16 => Row(733, 3, Level(589, 5, 122, 98, 1, 123, 99), Level(453, 7, 73, 45, 3, 74, 46), Level(325, 15, 43, 19, 2, 44, 20), Level(253, 3, 45, 15, 13, 46, 16))
    case 17 => Row(815, 3, Level(647, 1, 135, 107, 5, 136, 108), Level(507, 10, 74, 46, 1, 75, 47), Level(367, 1, 50, 22, 15, 51, 23), Level(283, 2, 42, 14, 17, 43, 15))
    case 18 => Row(901, 3, Level(721, 5, 150, 120, 1, 151, 121), Level(563, 9, 69, 43, 4, 70, 44), Level(397, 17, 50, 22, 1, 51, 23), Level(313, 2, 42, 14, 19, 43, 15))
    case 19 => Row(991, 3, Level(795, 3, 141, 113, 4, 142, 114), Level(627, 3, 70, 44, 11, 71, 45), Level(445, 17, 47, 21, 4, 48, 22), Level(341, 9, 39, 13, 16, 40, 14))
    case 20 => Row(1085, 3, Level(861, 3, 135, 107, 5, 136, 108), Level(669, 3, 67, 41, 13, 68, 42), Level(485, 15, 54, 24, 5, 55, 25), Level(385, 15, 43, 15, 10, 44, 16))
    case 21 => Row(1156, 4, Level(932, 4, 144, 116, 4, 145, 117), Level(714, 17, 68, 42, 0, 0, 0), Level(512, 17, 50, 22, 6, 51, 23), Level(406, 19, 46, 16, 6, 47, 17))
    case 22 => Row(1258, 4, Level(1006, 2, 139, 111, 7, 140, 112), Level(782, 17, 74, 46, 0, 0, 0), Level(568, 7, 54, 24, 16, 55, 25), Level(442, 34, 37, 13, 0, 0, 0))
    case 23 => Row(1364, 4, Level(1094, 4, 151, 121, 5, 152, 122), Level(860, 4, 75, 47, 14, 76, 48), Level(614, 11, 54, 24, 14, 55, 25), Level(464, 16, 45, 15, 14, 46, 16))
    case 24 => Row(1474, 4, Level(1174, 6, 147, 117, 4, 148, 118), Level(914, 6, 73, 45, 14, 74, 46), Level(664, 11, 54, 24, 16, 55, 25), Level(514, 30, 46, 16, 2, 47, 17))
    case 25 => Row(1588, 4, Level(1276, 8, 132, 106, 4, 133, 107), Level(1000, 8, 75, 47, 13, 76, 48), Level(718, 7, 54, 24, 22, 55, 25), Level(538, 22, 45, 15, 13, 46, 16))
    case 26 => Row(1706, 4, Level(1370, 10, 142, 114, 2, 143, 115), Level(1062, 19, 74, 46, 4, 75, 47), Level(754, 28, 50, 22, 6, 51, 23), Level(596, 33, 46, 16, 4, 47, 17))
    case 27 => Row(1828, 4, Level(1468, 8, 152, 122, 4, 153, 123), Level(1128, 22, 73, 45, 3, 74, 46), Level(808, 8, 53, 23, 26, 54, 24), Level(628, 12, 45, 15, 28, 46, 16))
    case 28 => Row(1921, 3, Level(1531, 3, 147, 117, 10, 148, 118), Level(1193, 3, 73, 45, 23, 74, 46), Level(871, 4, 54, 24, 31, 55, 25), Level(661, 11, 45, 15, 31, 46, 16))
    case 29 => Row(2051, 3, Level(1631, 7, 146, 116, 7, 147, 117), Level(1267, 21, 73, 45, 7, 74, 46), Level(911, 1, 53, 23, 37, 54, 24), Level(701, 19, 45, 15, 26, 46, 16))
    case 30 => Row(2185, 3, Level(1735, 5, 145, 115, 10, 146, 116), Level(1373, 19, 75, 47, 10, 76, 48), Level(985, 15, 54, 24, 25, 55, 25), Level(745, 23, 45, 15, 25, 46, 16))
    case 31 => Row(2323, 3, Level(1843, 13, 145, 115, 3, 146, 116), Level(1455, 2, 74, 46, 29, 75, 47), Level(1033, 42, 54, 24, 1, 55, 25), Level(793, 23, 45, 15, 28, 46, 16))
    case 32 => Row(2465, 3, Level(1955, 17, 145, 115, 0, 0, 0), Level(1541, 10, 74, 46, 23, 75, 47), Level(1115, 10, 54, 24, 35, 55, 25), Level(845, 19, 45, 15, 35, 46, 16))
    case 33 => Row(2611, 3, Level(2071, 17, 145, 115, 1, 146, 116), Level(1631, 14, 74, 46, 21, 75, 47), Level(1171, 29, 54, 24, 19, 55, 25), Level(901, 11, 45, 15, 46, 46, 16))
    case 34 => Row(2761, 3, Level(2191, 13, 145, 115, 6, 146, 116), Level(1725, 14, 74, 46, 23, 75, 47), Level(1231, 44, 54, 24, 7, 55, 25), Level(961, 59, 46, 16, 1, 47, 17))
    case 35 => Row(2876, 0, Level(2306, 12, 151, 121, 7, 152, 122), Level(1812, 12, 75, 47, 26, 76, 48), Level(1286, 39, 54, 24, 14, 55, 25), Level(986, 22, 45, 15, 41, 46, 16))
    case 36 => Row(3034, 0, Level(2434, 6, 151, 121, 14, 152, 122), Level(1914, 6, 75, 47, 34, 76, 48), Level(1354, 46, 54, 24, 10, 55, 25), Level(1054, 2, 45, 15, 64, 46, 16))
    case 37 => Row(3196, 0, Level(2566, 17, 152, 122, 4, 153, 123), Level(1992, 29, 74, 46, 14, 75, 47), Level(1426, 49, 54, 24, 10, 55, 25), Level(1096, 24, 45, 15, 46, 46, 16))
    case 38 => Row(3362, 0, Level(2702, 4, 152, 122, 18, 153, 123), Level(2102, 13, 74, 46, 32, 75, 47), Level(1502, 48, 54, 24, 14, 55, 25), Level(1142, 42, 45, 15, 32, 46, 16))
    case 39 => Row(3532, 0, Level(2812, 20, 147, 117, 4, 148, 118), Level(2216, 40, 75, 47, 7, 76, 48), Level(1582, 43, 54, 24, 22, 55, 25), Level(1222, 10, 45, 15, 67, 46, 16))
    case _ => Row(3706, 0, Level(2956, 19, 148, 118, 6, 149, 119), Level(2334, 18, 75, 47, 31, 76, 48), Level(1666, 34, 54, 24, 34, 55, 25), Level(1276, 20, 45, 15, 61, 46, 16))
  }

  function TotalWords(v: int): nat
    requires IsVersion(v)
  {
    RowOf(v).totalWords
  }

  function RemainderBits(v: int): nat
    requires IsVersion(v)
  {
    RowOf(v).remainder
  }

  /** Error-correction levels are numbered L, M, Q, H from 0. */
  function LevelOf(v: int, ecl: nat): Level
    requires IsVersion(v) && ecl < 4
  {
    RowOf(v).Level(ecl)
  }

  /** Centre coordinates of the alignment patterns. */
  function AlignmentCentres(v: int): seq<int>
    requires IsVersion(v)
  {
    match v
    case 1 => []
    case 2 => [6, 18]
    case 3 => [6, 22]
    case 4 => [6, 26]
    case 5 => [6, 30]
    case 6 => [6, 34]
    case 7 => [6, 22, 38]
    case 8 => [6, 24, 42]
    case 9 => [6, 26, 46]
    case 10 => [6, 28, 50]
    case 11 => [6, 30, 54]
    case 12 => [6, 32, 58]
    case 13 => [6, 34, 62]
    case 14 => [6, 26, 46, 66]
    case 15 => [6, 26, 48, 70]
    case 16 => [6, 26, 50, 74]
    case 17 => [6, 30, 54, 78]
    case 18 => [6, 30, 56, 82]
    case 19 => [6, 30, 58, 86]
    case 20 => [6, 34, 62, 90]
    case 21 => [6, 28, 50, 72, 94]
    case 22 => [6, 26, 50, 74, 98]
    case 23 => [6, 30, 54, 78, 102]
    case 24 => [6, 28, 54, 80, 106]
    case 25 => [6, 32, 58, 84, 110]
    case 26 => [6, 30, 58, 86, 114]
    case 27 => [6, 34, 62, 90, 118]
    case 28 => [6, 26, 50, 74, 98, 122]
    case 29 => [6, 30, 54, 78, 102, 126]
    case 30 => [6, 26, 52, 78, 104, 130]
    case 31 => [6, 30, 56, 82, 108, 134]
    case 32 => [6, 34, 60, 86, 112, 138]
    case 33 => [6, 30, 58, 86, 114, 142]
    case 34 => [6, 34, 62, 90, 118, 146]
    case 35 => [6, 30, 54, 78, 102, 126, 150]
    case 36 => [6, 24, 50, 76, 102, 128, 154]
    case 37 => [6, 28, 54, 80, 106, 132, 158]
    case 38 => [6, 32, 58, 84, 110, 136, 162]
    case 39 => [6, 26, 54, 82, 110, 138, 166]
    case _ => [6, 30, 58, 86, 114, 142, 170]
  }

  /** Lengths of error-correction blocks that occur. */
  predicate IsEcLength(n: int) {
    n == 7 || n == 10 || n == 13 || n == 15 || n == 16 || n == 17 || n == 18 || n == 20 || n == 22 || n == 24 || n == 26
    || n == 28 || n == 30
  }

  /** What the encoder relies on in a row of the table. */
  predicate Consistent(l: Level, total: nat) {
    && l.n1 * l.d1 + l.n2 * l.d2 == l.dataWords
    && l.n1 * l.t1 + l.n2 * l.t2 == total
    && l.n1 > 0 && 0 < l.d1 <= MAX_BLOCK_DATA && l.d2 <= MAX_BLOCK_DATA
    && IsEcLength(l.t1 - l.d1)
    && (l.n2 > 0 ==> l.t2 - l.d2 == l.t1 - l.d1 && l.d1 <= l.d2)
    && 9 <= l.dataWords <= MAX_DATA_WORDS && total - l.dataWords <= MAX_EC_WORDS && total <= MAX_CODE_WORDS
  }

  /** The bound on data words that keeps every character count within its indicator. */
  function DataWordBound(v: int): nat {
    if v <= 9 then 232 else if v <= 26 then 1370 else MAX_DATA_WORDS
  }

  predicate RowConsistent(v: int, r: Row) {
    && r.remainder <= 7
    && Consistent(r.l, r.totalWords) && r.l.dataWords <= DataWordBound(v)
    && Consistent(r.m, r.totalWords) && r.m.dataWords <= DataWordBound(v)
    && Consistent(r.q, r.totalWords) && r.q.dataWords <= DataWordBound(v)
    && Consistent(r.h, r.totalWords) && r.h.dataWords <= DataWordBound(v)
  }

  lemma RowsFrom1(v: int)
    requires 1 <= v <= 3
    ensures RowConsistent(v, RowOf(v))
  {
    if v == 1 {} else if v == 2 {} else {}
  }

  lemma RowsFrom4(v: int)
    requires 4 <= v <= 5
    ensures RowConsistent(v, RowOf(v))
  {
    if v == 4 {} else {}
  }

  lemma RowsFrom6(v: int)
    requires 6 <= v <= 8
    ensures RowConsistent(v, RowOf(v))
  {
    if v == 6 {} else if v == 7 {} else {}
  }

  lemma RowsFrom9(v: int)
    requires 9 <= v <= 10
    ensures RowConsistent(v, RowOf(v))
  {
    if v == 9 {} else {}
  }

  lemma RowsFrom11(v: int)
    requires 11 <= v <= 13
    ensures RowConsistent(v, RowOf(v))
  {
    if v == 11 {} else if v == 12 {} else {}
  }

  lemma RowsFrom14(v: int)
    requires 14 <= v <= 15
    ensures RowConsistent(v, RowOf(v))
  {
    if v == 14 {} else {}
  }

  lemma RowsFrom16(v: int)
    requires 16 <= v <= 18
    ensures RowConsistent(v, RowOf(v))
  {
    if v == 16 {} else if v == 17 {} else {}
  }

  lemma RowsFrom19(v: int)
    requires 19 <= v <= 20
    ensures RowConsistent(v, RowOf(v))
  {
    if v == 19 {} else {}
  }

  lemma RowsFrom21(v: int)
    requires 21 <= v <= 23
    ensures RowConsistent(v, RowOf(v))
  {
    if v == 21 {} else if v == 22 {} else {}
  }

  lemma RowsFrom24(v: int)
    requires 24 <= v <= 25
    ensures RowConsistent(v, RowOf(v))
  {
    if v == 24 {} else {}
  }

  lemma RowsFrom26(v: int)
    requires 26 <= v <= 28
    ensures RowConsistent(v, RowOf(v))
  {
    if v == 26 {} else if v == 27 {} else {}
  }

  lemma RowsFrom29(v: int)
    requires 29 <= v <= 30
    ensures RowConsistent(v, RowOf(v))
  {
    if v == 29 {} else {}
  }

  lemma RowsFrom31(v: int)
    requires 31 <= v <= 33
    ensures RowConsistent(v, RowOf(v))
  {
    if v == 31 {} else if v == 32 {} else {}
  }

  lemma RowsFrom34(v: int)
    requires 34 <= v <= 35
    ensures RowConsistent(v, RowOf(v))
  {
    if v == 34 {} else {}
  }

  lemma RowsFrom36(v: int)
    requires 36 <= v <= 38
    ensures RowConsistent(v, RowOf(v))
  {
    if v == 36 {} else if v == 37 {} else {}
  }

  lemma RowsFrom39(v: int)
    requires 39 <= v <= 40
    ensures RowConsistent(v, RowOf(v))
  {
    if v == 39 {} else {}
  }

  lemma RowsFrom1To20(v: int)
    requires 1 <= v <= 20
    ensures RowConsistent(v, RowOf(v))
  {
    hide *;
    if v <= 3 { RowsFrom1(v); } else if v <= 5 { RowsFrom4(v); }
    else if v <= 8 { RowsFrom6(v); } else if v <= 10 { RowsFrom9(v); }
    else if v <= 13 { RowsFrom11(v); } else if v <= 15 { RowsFrom14(v); }
    else if v <= 18 { RowsFrom16(v); } else { RowsFrom19(v); }
  }

  lemma RowsFrom21To40(v: int)
    requires 21 <= v <= 40
    ensures RowConsistent(v, RowOf(v))
  {
    hide *;
    if v <= 23 { RowsFrom21(v); } else if v <= 25 { RowsFrom24(v); }
    else if v <= 28 { RowsFrom26(v); } else if v <= 30 { RowsFrom29(v); }
    else if v <= 33 { RowsFrom31(v); } else if v <= 35 { RowsFrom34(v); }
    else if v <= 38 { RowsFrom36(v); } else { RowsFrom39(v); }
  }

  lemma TableConsistent(v: int, ecl: nat)
    requires IsVersion(v) && ecl < 4
    ensures Consistent(LevelOf(v, ecl), TotalWords(v))
    ensures LevelOf(v, ecl).dataWords <= DataWordBound(v)
    ensures RemainderBits(v) <= 7
  {
    hide RowOf;
    if v <= 20 { RowsFrom1To20(v); } else { RowsFrom21To40(v); }
  }

  // ---- Alignment patterns ----

  /** How far apart the centres are: the room between the ends in equal parts, rounded up to even; in version 32 it is less. */
  function Spacing(v: int): int
    requires 2 <= v <= MAX_VERSION
  {
    if v == 32 then 26 else 2 * ((4 * v + 4 + 2 * (v / 7 + 1) - 1) / (2 * (v / 7 + 1)))
  }

  /** The first centre is at 6, the last 7 from the far edge, the others at equal distances before it. */
  predicate AreCentres(v: int, cs: seq<int>)
    requires IsVersion(v)
  {
    if v == 1 then cs == []
    else
      && |cs| == v / 7 + 2 && cs[0] == 6
      && forall k :: 1 <= k < |cs| ==> cs[k] == Dimension(v) - 7 - Spacing(v) * (|cs| - 1 - k)
  }

  lemma CentresFrom1(v: int)
    requires 1 <= v <= 5
    ensures AreCentres(v, AlignmentCentres(v))
  {
    if v == 1 {} else if v == 2 {} else if v == 3 {} else if v == 4 {} else {}
  }

  lemma CentresFrom6(v: int)
    requires 6 <= v <= 10
    ensures AreCentres(v, AlignmentCentres(v))
  {
    if v == 6 {} else if v == 7 {} else if v == 8 {} else if v == 9 {} else {}
  }

  lemma CentresFrom11(v: int)
    requires 11 <= v <= 15
    ensures AreCentres(v, AlignmentCentres(v))
  {
    if v == 11 {} else if v == 12 {} else if v == 13 {} else if v == 14 {} else {}
  }

  lemma CentresFrom16(v: int)
    requires 16 <= v <= 20
    ensures AreCentres(v, AlignmentCentres(v))
  {
    if v == 16 {} else if v == 17 {} else if v == 18 {} else if v == 19 {} else {}
  }

  lemma CentresFrom21(v: int)
    requires 21 <= v <= 25
    ensures AreCentres(v, AlignmentCentres(v))
  {
    if v == 21 {} else if v == 22 {} else if v == 23 {} else if v == 24 {} else {}
  }

  lemma CentresFrom26(v: int)
    requires 26 <= v <= 30
    ensures AreCentres(v, AlignmentCentres(v))
  {
    if v == 26 {} else if v == 27 {} else if v == 28 {} else if v == 29 {} else {}
  }

  lemma CentresFrom31(v: int)
    requires 31 <= v <= 35
    ensures AreCentres(v, AlignmentCentres(v))
  {
    if v == 31 {} else if v == 32 {} else if v == 33 {} else if v == 34 {} else {}
  }

  lemma CentresFrom36(v: int)
    requires 36 <= v <= 40
    ensures AreCentres(v, AlignmentCentres(v))
  {
    if v == 36 {} else if v == 37 {} else if v == 38 {} else if v == 39 {} else {}
  }

  lemma CentresAreSpaced(v: int)
    requires IsVersion(v)
    ensures AreCentres(v, AlignmentCentres(v))
  {
    hide AreCentres, AlignmentCentres;
    if v <= 5 { CentresFrom1(v); } else if v <= 10 { CentresFrom6(v); } else if v <= 15 { CentresFrom11(v); }
    else if v <= 20 { CentresFrom16(v); } else if v <= 25 { CentresFrom21(v); } else if v <= 30 { CentresFrom26(v); }
    else if v <= 35 { CentresFrom31(v); } else { CentresFrom36(v); }
  }

  lemma WidthPowers()
    ensures Pow2(8) == 256 && Pow2(9) == 512 && Pow2(10) == 1024 && Pow2(11) == 2048 && Pow2(12) == 4096
    ensures Pow2(13) == 8192 && Pow2(14) == 16384 && Pow2(16) == 65536
  {
    assert Pow2(4) == 16;
    assert Pow2(8) == 256;
    assert Pow2(12) == 4096;
    assert Pow2(16) == 65536;
  }

  /** Whatever fits in a symbol has a character count that fits in that symbol's count indicator. */
  lemma FittingCountFits(v: int, ecl: nat, s: Segment)
    requires IsVersion(v) && ecl < 4 && s.Valid()
    requires EncodedLength(Widths(v), |s.data|, s.mode) <= 8 * LevelOf(v, ecl).dataWords
    ensures CountFits(Widths(v), s)
  {
    TableConsistent(v, ecl);
    WidthPowers();
  }
}
