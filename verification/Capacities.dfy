/**
 The other columns of the version table: how many characters a symbol holds, and how many errors a block corrects. The
 encoder never looks at them; they tie the data words of every level, the count widths and the blocks to the standard
 (ISO/IEC 18004:2015, tables 7 and 9).
 */
module Capacities {
  import opened Arithmetic
  import opened Segments
  import opened VersionTable
  import opened VersionChoice

  // ---- Characters ----

  /** Characters by mode; those of Kanji take two bytes each. */
  datatype Chars = Chars(numeric: nat, alnum: nat, eightBit: nat, kanji: nat) {
    function Of(m: Mode): nat
      requires Writable(m)
    {
      match m
      case Numeric => numeric
      case Alnum => alnum
      case EightBit => eightBit
    }
  }

  /** One entry for each of the levels L, M, Q and H. */
  datatype Column<T> = Column(l: T, m: T, q: T, h: T) {
    function At(ecl: nat): T
      requires ecl < 4
    {
      match ecl
      case 0 => l
      case 1 => m
      case 2 => q
      case 3 => h
    }
  }

  function CharsOf(v: int): Column<Chars>
    requires IsVersion(v)
  {
    match v
    case 1 => Column(Chars(41, 25, 17, 10), Chars(34, 20, 14, 8), Chars(27, 16, 11, 7), Chars(17, 10, 7, 4))
    case 2 => Column(Chars(77, 47, 32, 20), Chars(63, 38, 26, 16), Chars(48, 29, 20, 12), Chars(34, 20, 14, 8))
    case 3 => Column(Chars(127, 77, 53, 32), Chars(101, 61, 42, 26), Chars(77, 47, 32, 20), Chars(58, 35, 24, 15))
    case 4 => Column(Chars(187, 114, 78, 48), Chars(149, 90, 62, 38), Chars(111, 67, 46, 28), Chars(82, 50, 34, 21))
    case 5 => Column(Chars(255, 154, 106, 65), Chars(202, 122, 84, 52), Chars(144, 87, 60, 37), Chars(106, 64, 44, 27))
    case 6 => Column(Chars(322, 195, 134, 82), Chars(255, 154, 106, 65), Chars(178, 108, 74, 45), Chars(139, 84, 58, 36))
    case 7 => Column(Chars(370, 224, 154, 95), Chars(293, 178, 122, 75), Chars(207, 125, 86, 53), Chars(154, 93, 64, 39))
    case 8 => Column(Chars(461, 279, 192, 118), Chars(365, 221, 152, 93), Chars(259, 157, 108, 66), Chars(202, 122, 84, 52))
    case 9 => Column(Chars(552, 335, 230, 141), Chars(432, 262, 180, 111), Chars(312, 189, 130, 80), Chars(235, 143, 98, 60))
    case 10 => Column(Chars(652, 395, 271, 167), Chars(513, 311, 213, 131), Chars(364, 221, 151, 93), Chars(288, 174, 119, 74))
    case 11 => Column(Chars(772, 468, 321, 198), Chars(604, 366, 251, 155), Chars(427, 259, 177, 109), Chars(331, 200, 137, 85))
    case 12 => Column(Chars(883, 535, 367, 226), Chars(691, 419, 287, 177), Chars(489, 296, 203, 125), Chars(374, 227, 155, 96))
    case 13 => Column(Chars(1022, 619, 425, 262), Chars(796, 483, 331, 204), Chars(580, 352, 241, 149), Chars(427, 259, 177, 109))
    case 14 => Column(Chars(1101, 667, 458, 282), Chars(871, 528, 362, 223), Chars(621, 376, 258, 159), Chars(468, 283, 194, 120))
    case 15 => Column(Chars(1250, 758, 520, 320), Chars(991, 600, 412, 254), Chars(703, 426, 292, 180), Chars(530, 321, 220, 136))
    case 16 => Column(Chars(1408, 854, 586, 361), Chars(1082, 656, 450, 277), Chars(775, 470, 322, 198), Chars(602, 365, 250, 154))
    case 17 => Column(Chars(1548, 938, 644, 397), Chars(1212, 734, 504, 310), Chars(876, 531, 364, 224), Chars(674, 408, 280, 173))
    case 18 => Column(Chars(1725, 1046, 718, 442), Chars(1346, 816, 560, 345), Chars(948, 574, 394, 243), Chars(746, 452, 310, 191))
    case 19 => Column(Chars(1903, 1153, 792, 488), Chars(1500, 909, 624, 384), Chars(1063, 644, 442, 272), Chars(813, 493, 338, 208))
    case 20 => Column(Chars(2061, 1249, 858, 528), Chars(1600, 970, 666, 410), Chars(1159, 702, 482, 297), Chars(919, 557, 382, 235))
    case 21 => Column(Chars(2232, 1352, 929, 572), Chars(1708, 1035, 711, 438), Chars(1224, 742, 509, 314), Chars(969, 587, 403, 248))
    case 22 => Column(Chars(2409, 1460, 1003, 618), Chars(1872, 1134, 779, 480), Chars(1358, 823, 565, 348), Chars(1056, 640, 439, 270))
    case 23 => Column(Chars(2620, 1588, 1091, 672), Chars(2059, 1248, 857, 528), Chars(1468, 890, 611, 376), Chars(1108, 672, 461, 284))
    case 24 => Column(Chars(2812, 1704, 1171, 721), Chars(2188, 1326, 911, 561), Chars(1588, 963, 661, 407), Chars(1228, 744, 511, 315))
    case 25 => Column(Chars(3057, 1853, 1273, 784), Chars(2395, 1451, 997, 614), Chars(1718, 1041, 715, 440), Chars(1286, 779, 535, 330))
    case 26 => Column(Chars(3283, 1990, 1367, 842), Chars(2544, 1542, 1059, 652), Chars(1804, 1094, 751, 462), Chars(1425, 864, 593, 365))
    case 27 => Column(Chars(3517, 2132, 1465, 902), Chars(2701, 1637, 1125, 692), Chars(1933, 1172, 805, 496), Chars(1501, 910, 625, 385))
    case 28 => Column(Chars(3669, 2223, 1528, 940), Chars(2857, 1732, 1190, 732), Chars(2085, 1263, 868, 534), Chars(1581, 958, 658, 405))
    case 29 => Column(Chars(3909, 2369, 1628, 1002), Chars(3035, 1839, 1264, 778), Chars(2181, 1322, 908, 559), Chars(1677, 1016, 698, 430))
    case 30 => Column(Chars(4158, 2520, 1732, 1066), Chars(3289, 1994, 1370, 843), Chars(2358, 1429, 982, 604), Chars(1782, 1080, 742, 457))
    case 31 => Column(Chars(4417, 2677, 1840, 1132), Chars(3486, 2113, 1452, 894), Chars(2473, 1499, 1030, 634), Chars(1897, 1150, 790, 486))
    case 32 => Column(Chars(4686, 2840, 1952, 1201), Chars(3693, 2238, 1538, 947), Chars(2670, 1618, 1112, 684), Chars(2022, 1226, 842, 518))
    case 33 => Column(Chars(4965, 3009, 2068, 1273), Chars(3909, 2369, 1628, 1002), Chars(2805, 1700, 1168, 719), Chars(2157, 1307, 898, 553))
    case 34 => Column(Chars(5253, 3183, 2188, 1347), Chars(4134, 2506, 1722, 1060), Chars(2949, 1787, 1228, 756), Chars(2301, 1394, 958, 590))
    case 35 => Column(Chars(5529, 3351, 2303, 1417), Chars(4343, 2632, 1809, 1113), Chars(3081, 1867, 1283, 790), Chars(2361, 1431, 983, 605))
    case 36 => Column(Chars(5836, 3537, 2431, 1496), Chars(4588, 2780, 1911, 1176), Chars(3244, 1966, 1351, 832), Chars(2524, 1530, 1051, 647))
    case 37 => Column(Chars(6153, 3729, 2563, 1577), Chars(4775, 2894, 1989, 1224), Chars(3417, 2071, 1423, 876), Chars(2625, 1591, 1093, 673))
    case 38 => Column(Chars(6479, 3927, 2699, 1661), Chars(5039, 3054, 2099, 1292), Chars(3599, 2181, 1499, 923), Chars(2735, 1658, 1139, 701))
    case 39 => Column(Chars(6743, 4087, 2809, 1729), Chars(5313, 3220, 2213, 1362), Chars(3791, 2298, 1579, 972), Chars(2927, 1774, 1219, 750))
    case _ => Column(Chars(7089, 4296, 2953, 1817), Chars(5596, 3391, 2331, 1435), Chars(3993, 2420, 1663, 1024), Chars(3057, 1852, 1273, 784))
  }

  /** The four numbers are the most that go into so many data words: a digit takes 10/3 bits, an alphanumeric 11/2. */
  predicate Exact(w: CountWidths, words: nat, c: Chars) {
    && 10 * c.numeric <= 3 * (8 * words - 4 - w.numeric) < 10 * (c.numeric + 1)
    && 11 * c.alnum <= 2 * (8 * words - 4 - w.alnum) < 11 * (c.alnum + 1)
    && 8 * c.eightBit <= 8 * words - 4 - w.eightBit < 8 * (c.eightBit + 1)
    && 13 * c.kanji <= 8 * words - 4 - w.kanji < 13 * (c.kanji + 1)
  }

  predicate RowExact(w: CountWidths, r: Row, c: Column<Chars>) {
    && Exact(w, r.Level(0).dataWords, c.At(0)) && Exact(w, r.Level(1).dataWords, c.At(1))
    && Exact(w, r.Level(2).dataWords, c.At(2)) && Exact(w, r.Level(3).dataWords, c.At(3))
  }

  // ---- Levels and blocks ----

  /** How many wrong words a block is said to correct. */
  function CorrectsOf(v: int): Column<nat>
    requires IsVersion(v)
  {
    match v
    case 1 => Column(2, 4, 6, 8)
    case 2 => Column(4, 8, 11, 14)
    case 3 => Column(7, 13, 9, 11)
    case 4 => Column(10, 9, 13, 8)
    case 5 => Column(13, 12, 9, 11)
    case 6 => Column(9, 8, 12, 14)
    case 7 => Column(10, 9, 9, 13)
    case 8 => Column(12, 11, 11, 13)
    case 9 => Column(15, 11, 10, 12)
    case 10 => Column(9, 13, 12, 14)
    case 11 => Column(10, 15, 14, 12)
    case 12 => Column(12, 11, 13, 14)
    case 13 => Column(13, 11, 12, 11)
    case 14 => Column(15, 12, 10, 12)
    case 15 => Column(11, 12, 15, 12)
    case 16 => Column(12, 14, 12, 15)
    case 17 => Column(14, 14, 14, 14)
    case 18 => Column(15, 13, 14, 14)
    case 19 => Column(14, 13, 13, 13)
    case 20 => Column(14, 13, 15, 14)
    case 21 => Column(14, 13, 14, 15)
    case 22 => Column(14, 14, 15, 13)
    case 23 => Column(15, 14, 15, 15)
    case 24 => Column(15, 14, 15, 15)
    case 25 => Column(13, 14, 15, 15)
    case 26 => Column(14, 14, 14, 15)
    case 27 => Column(15, 14, 15, 15)
    case 28 => Column(15, 14, 15, 15)
    case 29 => Column(15, 14, 15, 15)
    case 30 => Column(15, 14, 15, 15)
    case 31 => Column(15, 14, 15, 15)
    case 32 => Column(15, 14, 15, 15)
    case 33 => Column(15, 14, 15, 15)
    case 34 => Column(15, 14, 15, 15)
    case 35 => Column(15, 14, 15, 15)
    case 36 => Column(15, 14, 15, 15)
    case 37 => Column(15, 14, 15, 15)
    case 38 => Column(15, 14, 15, 15)
    case 39 => Column(15, 14, 15, 15)
    case _ => Column(15, 14, 15, 15)
  }

  /** Words of a block that only guard against correcting what cannot be corrected. */
  function Guards(v: int, ecl: nat): nat {
    if v == 1 then (if ecl == 0 then 3 else if ecl == 1 then 2 else 1)
    else if v == 2 && ecl == 0 then 2 else if v == 3 && ecl == 0 then 1 else 0
  }

  /** The entry of version 22 at level H is 13, with words for 12 only. */
  predicate IsMisprint(v: int, ecl: nat) {
    v == 22 && ecl == 3
  }

  /** Each error takes two words; longer blocks come last and are longer by one word. */
  predicate Shaped(l: Level, corrects: nat, guards: nat, misprint: bool) {
    && l.t1 - l.d1 + (if misprint then 2 else 0) == 2 * corrects + guards
    && (if l.n2 > 0 then l.d2 == l.d1 + 1 else l.t2 == 0 && l.d2 == 0)
  }

  predicate RowShaped(v: int, r: Row, c: Column<nat>) {
    && Shaped(r.Level(0), c.At(0), Guards(v, 0), IsMisprint(v, 0)) && Shaped(r.Level(1), c.At(1), Guards(v, 1), IsMisprint(v, 1))
    && Shaped(r.Level(2), c.At(2), Guards(v, 2), IsMisprint(v, 2)) && Shaped(r.Level(3), c.At(3), Guards(v, 3), IsMisprint(v, 3))
    && r.Level(0).dataWords > r.Level(1).dataWords > r.Level(2).dataWords > r.Level(3).dataWords
  }

  lemma RowFrom1(v: int)
    requires 1 <= v <= 2
    ensures RowExact(Widths(v), RowOf(v), CharsOf(v)) && RowShaped(v, RowOf(v), CorrectsOf(v))
  {
    if v == 1 {} else {}
  }

  lemma RowFrom3(v: int)
    requires 3 <= v <= 4
    ensures RowExact(Widths(v), RowOf(v), CharsOf(v)) && RowShaped(v, RowOf(v), CorrectsOf(v))
  {
    if v == 3 {} else {}
  }

  lemma RowFrom5(v: int)
    requires 5 <= v <= 6
    ensures RowExact(Widths(v), RowOf(v), CharsOf(v)) && RowShaped(v, RowOf(v), CorrectsOf(v))
  {
    if v == 5 {} else {}
  }

  lemma RowFrom7(v: int)
    requires 7 <= v <= 8
    ensures RowExact(Widths(v), RowOf(v), CharsOf(v)) && RowShaped(v, RowOf(v), CorrectsOf(v))
  {
    if v == 7 {} else {}
  }

  lemma RowFrom9(v: int)
    requires 9 <= v <= 10
    ensures RowExact(Widths(v), RowOf(v), CharsOf(v)) && RowShaped(v, RowOf(v), CorrectsOf(v))
  {
    if v == 9 {} else {}
  }

  lemma RowFrom11(v: int)
    requires 11 <= v <= 12
    ensures RowExact(Widths(v), RowOf(v), CharsOf(v)) && RowShaped(v, RowOf(v), CorrectsOf(v))
  {
    if v == 11 {} else {}
  }

  lemma RowFrom13(v: int)
    requires 13 <= v <= 14
    ensures RowExact(Widths(v), RowOf(v), CharsOf(v)) && RowShaped(v, RowOf(v), CorrectsOf(v))
  {
    if v == 13 {} else {}
  }

  lemma RowFrom15(v: int)
    requires 15 <= v <= 16
    ensures RowExact(Widths(v), RowOf(v), CharsOf(v)) && RowShaped(v, RowOf(v), CorrectsOf(v))
  {
    if v == 15 {} else {}
  }

  lemma RowFrom17(v: int)
    requires 17 <= v <= 18
    ensures RowExact(Widths(v), RowOf(v), CharsOf(v)) && RowShaped(v, RowOf(v), CorrectsOf(v))
  {
    if v == 17 {} else {}
  }

  lemma RowFrom19(v: int)
    requires 19 <= v <= 20
    ensures RowExact(Widths(v), RowOf(v), CharsOf(v)) && RowShaped(v, RowOf(v), CorrectsOf(v))
  {
    if v == 19 {} else {}
  }

  lemma RowFrom21(v: int)
    requires 21 <= v <= 22
    ensures RowExact(Widths(v), RowOf(v), CharsOf(v)) && RowShaped(v, RowOf(v), CorrectsOf(v))
  {
    if v == 21 {} else {}
  }

  lemma RowFrom23(v: int)
    requires 23 <= v <= 24
    ensures RowExact(Widths(v), RowOf(v), CharsOf(v)) && RowShaped(v, RowOf(v), CorrectsOf(v))
  {
    if v == 23 {} else {}
  }

  lemma RowFrom25(v: int)
    requires 25 <= v <= 26
    ensures RowExact(Widths(v), RowOf(v), CharsOf(v)) && RowShaped(v, RowOf(v), CorrectsOf(v))
  {
    if v == 25 {} else {}
  }

  lemma RowFrom27(v: int)
    requires 27 <= v <= 28
    ensures RowExact(Widths(v), RowOf(v), CharsOf(v)) && RowShaped(v, RowOf(v), CorrectsOf(v))
  {
    if v == 27 {} else {}
  }

  lemma RowFrom29(v: int)
    requires 29 <= v <= 30
    ensures RowExact(Widths(v), RowOf(v), CharsOf(v)) && RowShaped(v, RowOf(v), CorrectsOf(v))
  {
    if v == 29 {} else {}
  }

  lemma RowFrom31(v: int)
    requires 31 <= v <= 32
    ensures RowExact(Widths(v), RowOf(v), CharsOf(v)) && RowShaped(v, RowOf(v), CorrectsOf(v))
  {
    if v == 31 {} else {}
  }

  lemma RowFrom33(v: int)
    requires 33 <= v <= 34
    ensures RowExact(Widths(v), RowOf(v), CharsOf(v)) && RowShaped(v, RowOf(v), CorrectsOf(v))
  {
    if v == 33 {} else {}
  }

  lemma RowFrom35(v: int)
    requires 35 <= v <= 36
    ensures RowExact(Widths(v), RowOf(v), CharsOf(v)) && RowShaped(v, RowOf(v), CorrectsOf(v))
  {
    if v == 35 {} else {}
  }

  lemma RowFrom37(v: int)
    requires 37 <= v <= 38
    ensures RowExact(Widths(v), RowOf(v), CharsOf(v)) && RowShaped(v, RowOf(v), CorrectsOf(v))
  {
    if v == 37 {} else {}
  }

  lemma RowFrom39(v: int)
    requires 39 <= v <= 40
    ensures RowExact(Widths(v), RowOf(v), CharsOf(v)) && RowShaped(v, RowOf(v), CorrectsOf(v))
  {
    if v == 39 {} else {}
  }

  lemma RowFrom1To20(v: int)
    requires 1 <= v <= 20
    ensures RowExact(Widths(v), RowOf(v), CharsOf(v)) && RowShaped(v, RowOf(v), CorrectsOf(v))
  {
    hide *;
    if v <= 2 { RowFrom1(v); } else if v <= 4 { RowFrom3(v); } else if v <= 6 { RowFrom5(v); }
    else if v <= 8 { RowFrom7(v); } else if v <= 10 { RowFrom9(v); } else if v <= 12 { RowFrom11(v); }
    else if v <= 14 { RowFrom13(v); } else if v <= 16 { RowFrom15(v); } else if v <= 18 { RowFrom17(v); }
    else { RowFrom19(v); }
  }

  lemma RowFrom21To40(v: int)
    requires 21 <= v <= 40
    ensures RowExact(Widths(v), RowOf(v), CharsOf(v)) && RowShaped(v, RowOf(v), CorrectsOf(v))
  {
    hide *;
    if v <= 22 { RowFrom21(v); } else if v <= 24 { RowFrom23(v); } else if v <= 26 { RowFrom25(v); }
    else if v <= 28 { RowFrom27(v); } else if v <= 30 { RowFrom29(v); } else if v <= 32 { RowFrom31(v); }
    else if v <= 34 { RowFrom33(v); } else if v <= 36 { RowFrom35(v); } else if v <= 38 { RowFrom37(v); }
    else { RowFrom39(v); }
  }

  lemma RowAgrees(v: int)
    requires IsVersion(v)
    ensures RowExact(Widths(v), RowOf(v), CharsOf(v)) && RowShaped(v, RowOf(v), CorrectsOf(v))
  {
    hide Widths, RowOf, CharsOf, CorrectsOf, RowExact, RowShaped;
    if v <= 20 { RowFrom1To20(v); } else { RowFrom21To40(v); }
  }

  // ---- What the columns say ----

  lemma CharsAt(v: int, ecl: nat)
    requires IsVersion(v) && ecl < 4
    ensures Exact(Widths(v), LevelOf(v, ecl).dataWords, CharsOf(v).At(ecl))
  {
    RowAgrees(v);
    hide RowOf, CharsOf, CorrectsOf, Exact, Widths, RowShaped;
  }

  /** The table says how many characters an otherwise empty symbol holds, in every version, level and mode. */
  lemma CharsAreEncodable(v: int, ecl: nat)
    requires IsVersion(v) && ecl < 4
    ensures forall m :: Writable(m) ==> EncodableLength(Widths(v), Capacity(v, ecl), m) == CharsOf(v).At(ecl).Of(m)
    ensures EncodableLength(Widths(v), Capacity(v, ecl), Kanji) == 2 * CharsOf(v).At(ecl).kanji
  {
    CharsAt(v, ecl);
    var w, words, c := Widths(v), LevelOf(v, ecl).dataWords, CharsOf(v).At(ecl);
    hide LevelOf, CharsOf, Widths;
    MostDigits(8 * words - 4 - w.numeric, c.numeric);
    MostAlnums(8 * words - 4 - w.alnum, c.alnum);
    MostWhole(8 * words - 4 - w.eightBit, 8, c.eightBit);
    MostWhole(8 * words - 4 - w.kanji, 13, c.kanji);
  }

  lemma MostDigits(n: int, c: nat)
    requires 10 * c <= 3 * n < 10 * (c + 1)
    ensures n >= 0 && c == (n / 10) * 3 + (if n % 10 >= 7 then 2 else if n % 10 >= 4 then 1 else 0)
  {
  }

  lemma MostAlnums(n: int, c: nat)
    requires 11 * c <= 2 * n < 11 * (c + 1)
    ensures n >= 0 && c == (n / 11) * 2 + (if n % 11 >= 6 then 1 else 0)
  {
  }

  lemma MostWhole(n: int, bits: nat, c: nat)
    requires bits > 0 && bits * c <= n < bits * (c + 1)
    ensures n >= 0 && c == n / bits
  {
    assert bits * (c + 1) == bits * c + bits;
    QuotientIs(n, bits, c, n - bits * c);
  }

  /** Data fit in an otherwise empty symbol exactly when they have no more characters than the table says. */
  lemma FitsByTable(v: int, ecl: nat, m: Mode, size: nat)
    requires IsVersion(v) && ecl < 4 && Writable(m) && size > 0
    ensures EncodedLength(Widths(v), size, m) <= Capacity(v, ecl) <==> size <= CharsOf(v).At(ecl).Of(m)
  {
    CharsAreEncodable(v, ecl);
    hide CharsOf, Capacity, Widths, EncodableLength, EncodedLength;
    LengthAdjoint(Widths(v), size, Capacity(v, ecl), m);
  }

  /** The higher the level, the fewer data words: no two levels of a version are alike. */
  lemma LevelsFall(v: int)
    requires IsVersion(v)
    ensures LevelOf(v, 0).dataWords > LevelOf(v, 1).dataWords > LevelOf(v, 2).dataWords > LevelOf(v, 3).dataWords
  {
    hide RowOf;
    RowAgrees(v);
  }

  /** A block has two words for every error it is said to correct, and its guards, but for one entry, which is never read. */
  lemma CorrectsIff(v: int, ecl: nat)
    requires IsVersion(v) && ecl < 4
    ensures var l := LevelOf(v, ecl);
            l.t1 - l.d1 == 2 * CorrectsOf(v).At(ecl) + Guards(v, ecl) <==> !(v == 22 && ecl == 3)
  {
    hide RowOf, CorrectsOf;
    RowAgrees(v);
  }

  /** Data words, all words and the words for correction leave no choice of blocks. */
  lemma BlocksDetermined(v: int, ecl: nat, l: Level)
    requires IsVersion(v) && ecl < 4
    requires Consistent(l, TotalWords(v)) && l.dataWords == LevelOf(v, ecl).dataWords
    requires Shaped(l, CorrectsOf(v).At(ecl), Guards(v, ecl), IsMisprint(v, ecl))
    ensures l == LevelOf(v, ecl)
  {
    TableConsistent(v, ecl);
    RowAgrees(v);
    ShapedAt(v, ecl);
    var k := LevelOf(v, ecl);
    hide RowOf, CorrectsOf, Guards, IsMisprint, LevelOf;
    SameBlocks(k, l, TotalWords(v), k.t1 - k.d1);
  }

  lemma ShapedAt(v: int, ecl: nat)
    requires IsVersion(v) && ecl < 4 && RowShaped(v, RowOf(v), CorrectsOf(v))
    ensures Shaped(LevelOf(v, ecl), CorrectsOf(v).At(ecl), Guards(v, ecl), IsMisprint(v, ecl))
  {
    hide RowOf, CorrectsOf, Guards, IsMisprint, Shaped;
  }

  lemma SameBlocks(k: Level, l: Level, total: nat, e: nat)
    requires Consistent(k, total) && Consistent(l, total) && k.dataWords == l.dataWords
    requires k.t1 - k.d1 == l.t1 - l.d1 == e > 0
    requires if k.n2 > 0 then k.d2 == k.d1 + 1 else k.t2 == 0 && k.d2 == 0
    requires if l.n2 > 0 then l.d2 == l.d1 + 1 else l.t2 == 0 && l.d2 == 0
    ensures k == l
  {
    hide *;
    CountBlocks(k, total, e);
    CountBlocks(l, total, e);
    SameQuotient(e, k.n1 + k.n2, 0, l.n1 + l.n2, 0);
    SameQuotient(k.n1 + k.n2, k.d1, k.n2, l.d1, l.n2);
  }

  lemma CountBlocks(l: Level, total: nat, e: nat)
    requires Consistent(l, total) && l.t1 - l.d1 == e
    requires if l.n2 > 0 then l.d2 == l.d1 + 1 else l.t2 == 0 && l.d2 == 0
    ensures e * (l.n1 + l.n2) + 0 == total - l.dataWords
    ensures l.dataWords == (l.n1 + l.n2) * l.d1 + l.n2 && l.n1 > 0
    ensures l.t1 == l.d1 + e && (l.n2 > 0 ==> l.t2 == l.d2 + e)
  {
    ConsistentMeans(l, total);
    hide *;
    if l.n2 > 0 {
      Sums(l.n1, l.n2, l.d1, e);
    } else {
      assert l.n1 * (l.d1 + e) == l.n1 * l.d1 + e * l.n1;
    }
  }

  lemma ConsistentMeans(l: Level, total: nat)
    requires Consistent(l, total)
    ensures l.n1 * l.d1 + l.n2 * l.d2 == l.dataWords && l.n1 * l.t1 + l.n2 * l.t2 == total && l.n1 > 0 && l.t1 > l.d1
    ensures l.n2 > 0 ==> l.t2 - l.d2 == l.t1 - l.d1
  {
  }

  lemma Sums(n1: nat, n2: nat, d: nat, e: nat)
    ensures n1 * d + n2 * (d + 1) == (n1 + n2) * d + n2
    ensures n1 * (d + e) + n2 * (d + 1 + e) == (n1 * d + n2 * (d + 1)) + e * (n1 + n2)
  {
    assert n1 * (d + e) == n1 * d + n1 * e;
    assert n2 * (d + 1 + e) == n2 * (d + 1) + n2 * e;
    assert n2 * (d + 1) == n2 * d + n2;
    assert (n1 + n2) * d == n1 * d + n2 * d;
    assert e * (n1 + n2) == n1 * e + n2 * e;
  }
}
