/** Worked examples of the standard (ISO/IEC 18004:2015, sections 7.4.3 and 7.4.4 and annex I). */
module StandardExamples {
  import opened Bits
  import opened Options
  import opened Segments
  import opened VersionTable
  import opened VersionChoice
  import opened DataStream
  import opened ReadBack

  /** Characters as they are handed over. */
  function Octets(s: string): (data: seq<Octet>)
    requires forall i :: 0 <= i < |s| ==> s[i] as int < 256
    ensures |data| == |s| && forall i :: 0 <= i < |s| ==> data[i] == s[i] as int
  {
    seq(|s|, i requires 0 <= i < |s| => s[i] as int)
  }

  /** Ones and zeros as they are printed. */
  function Digits(s: string): (bits: seq<bool>)
    ensures |bits| == |s| && forall i :: 0 <= i < |s| ==> bits[i] == (s[i] == '1')
  {
    seq(|s|, i requires 0 <= i < |s| => s[i] == '1')
  }

  lemma NumericMode()
    ensures ToBits(4, 1) == Digits("0001")
  {
    assert ToBits(4, 1) == [false, false, false, true];
  }

  lemma EightDigits()
    ensures ToBits(10, 8) == Digits("0000001000")
  {
    assert ToBits(10, 8) == [false, false, false, false, false, false, true, false, false, false];
  }

  lemma Digits012()
    ensures ToBits(10, 12) == Digits("0000001100")
  {
    assert ToBits(10, 12) == [false, false, false, false, false, false, true, true, false, false];
  }

  lemma Digits345()
    ensures ToBits(10, 345) == Digits("0101011001")
  {
    assert ToBits(10, 345) == [false, true, false, true, false, true, true, false, false, true];
  }

  lemma Digits67()
    ensures ToBits(7, 67) == Digits("1000011")
  {
    assert ToBits(7, 67) == [true, false, false, false, false, true, true];
  }

  lemma AlnumMode()
    ensures ToBits(4, 2) == Digits("0010")
  {
    assert ToBits(4, 2) == [false, false, true, false];
  }

  lemma FiveChars()
    ensures ToBits(9, 5) == Digits("000000101")
  {
    assert ToBits(9, 5) == [false, false, false, false, false, false, true, false, true];
  }

  lemma CharsAC()
    ensures ToBits(11, 462) == Digits("00111001110")
  {
    assert ToBits(11, 462) == [false, false, true, true, true, false, false, true, true, true, false];
  }

  lemma CharsDash4()
    ensures ToBits(11, 1849) == Digits("11100111001")
  {
    assert ToBits(11, 1849) == [true, true, true, false, false, true, true, true, false, false, true];
  }

  lemma Char2()
    ensures ToBits(6, 2) == Digits("000010")
  {
    assert ToBits(6, 2) == [false, false, false, false, true, false];
  }

  /** The eight digits in a symbol of version 1: mode, count, two groups of three and one of two. */
  lemma NumericExample()
    ensures var s := Segment(Numeric, Octets("01234567"));
            s.Valid() && EncodeSegment(Widths(1), s) ==
              Digits("0001") + Digits("0000001000") + (Digits("0000001100") + (Digits("0101011001") + Digits("1000011")))
  {
    NumericMode();
    EightDigits();
    Digits012();
    Digits345();
    Digits67();
    DigitOctets();
    hide *;
    var data: seq<Octet> := [48, 49, 50] + ([51, 52, 53] + [54, 55]);
    Group2(54, 55);
    Group3(51, 52, 53, [54, 55]);
    Group3(48, 49, 50, [51, 52, 53] + [54, 55]);
    SegmentIs(Numeric, data);
  }

  lemma DigitOctets()
    ensures Octets("01234567") == [48, 49, 50] + ([51, 52, 53] + [54, 55])
  {
  }

  lemma SegmentIs(m: Mode, data: seq<Octet>)
    requires (m == Numeric || m == Alnum) && data != [] && AllCharsOf(m, data)
    ensures Segment(m, data).Valid()
    ensures EncodeSegment(Widths(1), Segment(m, data)) ==
            ToBits(4, if m == Numeric then 1 else 2) + ToBits(if m == Numeric then 10 else 9, |data|) + EncodeChars(m, data)
  {
    hide EncodeChars, ToBits, AlnumCode;
  }

  lemma Group3(a: Octet, b: Octet, c: Octet, rest: seq<Octet>)
    requires 48 <= a <= 57 && 48 <= b <= 57 && 48 <= c <= 57 && rest != [] && AllCharsOf(Numeric, rest)
    ensures AllCharsOf(Numeric, [a, b, c] + rest)
    ensures var x: int, y: int, z: int := a, b, c;
            EncodeChars(Numeric, [a, b, c] + rest) ==
            ToBits(10, 100 * (x - 48) + 10 * (y - 48) + (z - 48)) + EncodeChars(Numeric, rest)
  {
    hide ToBits, EncodeChars, GroupValue;
    var data := [a, b, c] + rest;
    assert data[..3] == [a, b, c] && data[3..] == rest;
    EncodeGroup(Numeric, data);
    ThreeDigits(a, b, c);
  }

  lemma ThreeDigits(a: Octet, b: Octet, c: Octet)
    requires 48 <= a <= 57 && 48 <= b <= 57 && 48 <= c <= 57
    ensures var x: int, y: int, z: int := a, b, c;
            GroupValue(Numeric, [a, b, c]) == 100 * (x - 48) + 10 * (y - 48) + (z - 48)
  {
    TwoDigits(a, b);
    assert [a, b, c][..2] == [a, b];
  }

  lemma TwoDigits(a: Octet, b: Octet)
    requires 48 <= a <= 57 && 48 <= b <= 57
    ensures var x: int, y: int := a, b; GroupValue(Numeric, [a, b]) == 10 * (x - 48) + (y - 48)
  {
    assert [a, b][..1] == [a] && [a][..0] == [];
    assert GroupValue(Numeric, []) == 0;
  }

  lemma Group2(a: Octet, b: Octet)
    requires 48 <= a <= 57 && 48 <= b <= 57
    ensures AllCharsOf(Numeric, [a, b])
    ensures var x: int, y: int := a, b; EncodeChars(Numeric, [a, b]) == ToBits(7, 10 * (x - 48) + (y - 48))
  {
    TwoDigits(a, b);
    hide ToBits, GroupValue;
  }

  /** The five characters in a symbol of version 1: mode, count, two pairs and one character. */
  lemma AlnumExample()
    ensures var s := Segment(Alnum, Octets("AC-42"));
            s.Valid() && EncodeSegment(Widths(1), s) ==
              Digits("0010") + Digits("000000101") + (Digits("00111001110") + (Digits("11100111001") + Digits("000010")))
  {
    AlnumMode();
    FiveChars();
    CharsAC();
    CharsDash4();
    Char2();
    AlnumOctets();
    AlnumCodes();
    hide *;
    var data: seq<Octet> := [65, 67] + ([45, 52] + [50]);
    One(50);
    Pair(45, 52, [50]);
    Pair(65, 67, [45, 52] + [50]);
    SegmentIs(Alnum, data);
  }

  lemma AlnumOctets()
    ensures Octets("AC-42") == [65, 67] + ([45, 52] + [50])
  {
  }

  lemma AlnumCodes()
    ensures AlnumCode(65) == 10 && AlnumCode(67) == 12 && AlnumCode(45) == 41 && AlnumCode(52) == 4 && AlnumCode(50) == 2
  {
  }

  lemma Pair(a: Octet, b: Octet, rest: seq<Octet>)
    requires AlnumCode(a) != -1 && AlnumCode(b) != -1 && rest != [] && AllCharsOf(Alnum, rest)
    ensures AllCharsOf(Alnum, [a, b] + rest)
    ensures EncodeChars(Alnum, [a, b] + rest) == ToBits(11, 45 * AlnumCode(a) + AlnumCode(b)) + EncodeChars(Alnum, rest)
  {
    hide AlnumCode, ToBits, EncodeChars;
    var data := [a, b] + rest;
    EncodeGroup(Alnum, data);
    PairValue(a, b);
    assert data[..2] == [a, b] && data[2..] == rest;
  }

  lemma PairValue(a: Octet, b: Octet)
    requires AlnumCode(a) != -1 && AlnumCode(b) != -1
    ensures AllCharsOf(Alnum, [a, b]) && GroupValue(Alnum, [a, b]) == 45 * AlnumCode(a) + AlnumCode(b)
  {
    hide AlnumCode;
    assert [a, b][..1] == [a] && [a][..0] == [];
    assert GroupValue(Alnum, []) == 0;
  }

  lemma One(a: Octet)
    requires AlnumCode(a) != -1
    ensures AllCharsOf(Alnum, [a]) && EncodeChars(Alnum, [a]) == ToBits(6, AlnumCode(a))
  {
    hide AlnumCode, ToBits;
    assert [a][..0] == [];
    assert GroupValue(Alnum, []) == 0;
  }

  /** Bits of one digit in each mode and range of versions: they differ by the widths of the count indicators alone. */
  lemma OneDigit(v: int, c: Octet)
    requires IsVersion(v) && 48 <= c <= 57
    ensures Segment(Numeric, [c]).Valid() && Segment(Alnum, [c]).Valid() && Segment(EightBit, [c]).Valid()
    ensures |EncodeSegment(Widths(v), Segment(Numeric, [c]))| == if v < 10 then 18 else if v < 27 then 20 else 22
    ensures |EncodeSegment(Widths(v), Segment(Alnum, [c]))| == if v < 10 then 19 else if v < 27 then 21 else 23
    ensures |EncodeSegment(Widths(v), Segment(EightBit, [c]))| == if v < 10 then 20 else 28
  {
    hide EncodeSegment, AlnumCode;
    DigitIsAlnum(c);
    EncodeSegmentLength(Widths(v), Segment(Numeric, [c]));
    EncodeSegmentLength(Widths(v), Segment(Alnum, [c]));
    EncodeSegmentLength(Widths(v), Segment(EightBit, [c]));
  }

  lemma DigitIsAlnum(c: Octet)
    requires 48 <= c <= 57
    ensures AlnumCode(c) != -1
  {
  }

  // ---- The data words of annex I ----

  function Stream(): string {
    "0001" + "0000001000" + ("0000001100" + ("0101011001" + "1000011"))
  }

  lemma Join(a: string, b: string)
    ensures Digits(a) + Digits(b) == Digits(a + b)
  {
  }

  lemma StreamIs()
    ensures var s := Segment(Numeric, Octets("01234567"));
            s.Valid() && EncodeSegments(Widths(1), [s]) == Digits(Stream()) && |Stream()| == 41
  {
    NumericExample();
    OneSegment(Widths(1), Segment(Numeric, Octets("01234567")));
    hide *;
    Join("0101011001", "1000011");
    Join("0000001100", "0101011001" + "1000011");
    Join("0001", "0000001000");
    Join("0001" + "0000001000", "0000001100" + ("0101011001" + "1000011"));
    StreamLength();
  }

  lemma StreamLength()
    ensures Stream() == "0001" + "0000001000" + ("0000001100" + ("0101011001" + "1000011")) && |Stream()| == 41
  {
  }

  lemma OneSegment(w: CountWidths, s: Segment)
    requires s.Valid()
    ensures EncodeSegments(w, [s]) == EncodeSegment(w, s)
  {
    hide EncodeSegment;
    assert [s][..0] == [];
    assert EncodeSegments(w, []) == [];
  }

  /** The digits 01234567 in a symbol of version 1 at level M: its sixteen data words, to the last pad word. */
  lemma DataWords(data: seq<bv8>)
    requires var s := Segment(Numeric, Octets("01234567"));
             s.Valid() && BitStream(data) == Completed(EncodeSegments(Widths(1), [s]), Capacity(1, 1))
    ensures data == [0x10, 0x20, 0x0c, 0x56, 0x61, 0x80, 0xec, 0x11, 0xec, 0x11, 0xec, 0x11, 0xec, 0x11, 0xec, 0x11]
  {
    StreamIs();
    CapacityIs(1, 1);
    WordsOfLevelM();
    hide *;
    CompletedIsPadded(data, Digits(Stream()));
    FrontBits(data);
    PaddedTo16(data);
  }

  lemma WordsOfLevelM()
    ensures LevelOf(1, 1).dataWords == 16
  {
  }

  lemma PaddedTo16(data: seq<bv8>)
    requires |data| == 16 && IsPadded(data, 41) && data[..6] == [0x10, 0x20, 0x0c, 0x56, 0x61, 0x80]
    ensures data == [0x10, 0x20, 0x0c, 0x56, 0x61, 0x80, 0xec, 0x11, 0xec, 0x11, 0xec, 0x11, 0xec, 0x11, 0xec, 0x11]
  {
    assert FirstPad(41) == 6;
    assert data == data[..6] + [data[6], data[7], data[8], data[9], data[10], data[11], data[12], data[13], data[14], data[15]];
  }

  /** The words that the stream reaches into. */
  lemma FrontBits(data: seq<bv8>)
    requires |data| == 16 && |Stream()| == 41 && BitStream(data) == Completed(Digits(Stream()), 128) && IsPadded(data, 41)
    ensures data[..6] == [0x10, 0x20, 0x0c, 0x56, 0x61, 0x80]
  {
    StreamBits(data);
    FillBits(data);
    hide *;
    Word0(data);
    Word1(data);
    Word2(data);
    Word3(data);
    Word4(data);
    Word5(data);
    assert data[..6] == [data[0], data[1], data[2], data[3], data[4], data[5]];
  }

  lemma StreamBits(data: seq<bv8>)
    requires |data| == 16 && |Stream()| == 41 && BitStream(data) == Completed(Digits(Stream()), 128)
    ensures forall i :: 0 <= i < 41 ==> BitStream(data)[i] == (Stream()[i] == '1')
  {
    hide *;
    forall i | 0 <= i < 41 ensures BitStream(data)[i] == (Stream()[i] == '1') {
      CompletedFront(i);
    }
  }

  lemma FillBits(data: seq<bv8>)
    requires |data| == 16 && IsPadded(data, 41)
    ensures forall i :: 41 <= i < 48 ==> !BitStream(data)[i]
  {
    hide BitStream;
    assert FirstPad(41) == 6;
  }

  lemma CompletedFront(i: nat)
    requires i < 41 == |Stream()|
    ensures Completed(Digits(Stream()), 128)[i] == (Stream()[i] == '1')
  {
    hide Tail;
  }

  lemma Word0(data: seq<bv8>)
    requires |data| == 16 && |Stream()| == 41 && forall i :: 0 <= i < 41 ==> BitStream(data)[i] == (Stream()[i] == '1')
    ensures data[0] == 0x10
  {
    assert Stream()[0] == '0' && Stream()[1] == '0' && Stream()[2] == '0' && Stream()[3] == '1' && Stream()[4] == '0' && Stream()[5] == '0' && Stream()[6] == '0' && Stream()[7] == '0';
    hide BitStream, PackByte;
    PackEightBits(data, 0);
    assert BitStream(data)[0..8] == [false, false, false, true, false, false, false, false];
    Byte0();
  }

  lemma Byte0()
    ensures PackByte([false, false, false, true, false, false, false, false]) == 0x10
  {
  }

  lemma Word1(data: seq<bv8>)
    requires |data| == 16 && |Stream()| == 41 && forall i :: 0 <= i < 41 ==> BitStream(data)[i] == (Stream()[i] == '1')
    ensures data[1] == 0x20
  {
    assert Stream()[8] == '0' && Stream()[9] == '0' && Stream()[10] == '1' && Stream()[11] == '0' && Stream()[12] == '0' && Stream()[13] == '0' && Stream()[14] == '0' && Stream()[15] == '0';
    hide BitStream, PackByte;
    PackEightBits(data, 1);
    assert BitStream(data)[8..16] == [false, false, true, false, false, false, false, false];
    Byte1();
  }

  lemma Byte1()
    ensures PackByte([false, false, true, false, false, false, false, false]) == 0x20
  {
  }

  lemma Word2(data: seq<bv8>)
    requires |data| == 16 && |Stream()| == 41 && forall i :: 0 <= i < 41 ==> BitStream(data)[i] == (Stream()[i] == '1')
    ensures data[2] == 0x0c
  {
    assert Stream()[16] == '0' && Stream()[17] == '0' && Stream()[18] == '0' && Stream()[19] == '0' && Stream()[20] == '1' && Stream()[21] == '1' && Stream()[22] == '0' && Stream()[23] == '0';
    hide BitStream, PackByte;
    PackEightBits(data, 2);
    assert BitStream(data)[16..24] == [false, false, false, false, true, true, false, false];
    Byte2();
  }

  lemma Byte2()
    ensures PackByte([false, false, false, false, true, true, false, false]) == 0x0c
  {
  }

  lemma Word3(data: seq<bv8>)
    requires |data| == 16 && |Stream()| == 41 && forall i :: 0 <= i < 41 ==> BitStream(data)[i] == (Stream()[i] == '1')
    ensures data[3] == 0x56
  {
    assert Stream()[24] == '0' && Stream()[25] == '1' && Stream()[26] == '0' && Stream()[27] == '1' && Stream()[28] == '0' && Stream()[29] == '1' && Stream()[30] == '1' && Stream()[31] == '0';
    hide BitStream, PackByte;
    PackEightBits(data, 3);
    assert BitStream(data)[24..32] == [false, true, false, true, false, true, true, false];
    Byte3();
  }

  lemma Byte3()
    ensures PackByte([false, true, false, true, false, true, true, false]) == 0x56
  {
  }

  lemma Word4(data: seq<bv8>)
    requires |data| == 16 && |Stream()| == 41 && forall i :: 0 <= i < 41 ==> BitStream(data)[i] == (Stream()[i] == '1')
    ensures data[4] == 0x61
  {
    assert Stream()[32] == '0' && Stream()[33] == '1' && Stream()[34] == '1' && Stream()[35] == '0' && Stream()[36] == '0' && Stream()[37] == '0' && Stream()[38] == '0' && Stream()[39] == '1';
    hide BitStream, PackByte;
    PackEightBits(data, 4);
    assert BitStream(data)[32..40] == [false, true, true, false, false, false, false, true];
    Byte4();
  }

  lemma Byte4()
    ensures PackByte([false, true, true, false, false, false, false, true]) == 0x61
  {
  }

  lemma Word5(data: seq<bv8>)
    requires |data| == 16 && |Stream()| == 41 && forall i :: 0 <= i < 41 ==> BitStream(data)[i] == (Stream()[i] == '1')
    requires forall i :: 41 <= i < 48 ==> !BitStream(data)[i]
    ensures data[5] == 0x80
  {
    assert Stream()[40] == '1';
    hide BitStream, PackByte;
    PackEightBits(data, 5);
    assert BitStream(data)[40..48] == [true, false, false, false, false, false, false, false];
    Byte5();
  }

  lemma Byte5()
    ensures PackByte([true, false, false, false, false, false, false, false]) == 0x80
  {
  }
}
