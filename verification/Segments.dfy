/**
 Data encodation (ISO/IEC 18004:2015, section 7.4): what bits a segment is written as,
 how long they are, and a reader that gets the segments back.
 */
module Segments {
  import opened Bits
  import opened Options

  datatype Mode = Auto | Numeric | Alnum | EightBit | Kanji

  /** Bits of the character count indicator, by mode: the `nlen` row of one version. */
  datatype CountWidths = CountWidths(numeric: nat, alnum: nat, eightBit: nat, kanji: nat) {
    function Of(m: Mode): nat
      requires m != Auto
    {
      match m
      case Numeric => numeric
      case Alnum => alnum
      case EightBit => eightBit
      case Kanji => kanji
    }
  }

  /** The three modes whose data can be written; Kanji data never can be. */
  predicate Writable(m: Mode) {
    m.Numeric? || m.Alnum? || m.EightBit?
  }

  function ModeId(m: Mode): nat
    requires m != Auto
  {
    match m
    case Numeric => 1
    case Alnum => 2
    case EightBit => 4
    case Kanji => 8
  }

  /** The 45-character table, -1 outside it. */
  function AlnumCode(c: Octet): (code: int)
    ensures -1 <= code < 45
  {
    if 48 <= c <= 57 then c - 48
    else if 65 <= c <= 90 then c - 55
    else if c == 32 then 36
    else if c == 36 then 37
    else if c == 37 then 38
    else if c == 42 then 39
    else if c == 43 then 40
    else if c == 45 then 41
    else if c == 46 then 42
    else if c == 47 then 43
    else if c == 58 then 44
    else -1
  }

  predicate IsCharOf(m: Mode, c: Octet) {
    match m
    case Numeric => 48 <= c <= 57
    case Alnum => AlnumCode(c) != -1
    case EightBit => true
    case _ => false
  }

  // Characters are packed in groups: 3 digits in 10 bits, 2 alphanumerics in 11, 1 byte in 8.

  function GroupSize(m: Mode): (g: nat)
    requires Writable(m)
    ensures 1 <= g <= 3
  {
    match m
    case Numeric => 3
    case Alnum => 2
    case EightBit => 1
  }

  function Radix(m: Mode): (r: nat)
    requires Writable(m)
    ensures r >= 10
  {
    match m
    case Numeric => 10
    case Alnum => 45
    case EightBit => 256
  }

  /** Bits that a group of k characters takes. */
  function GroupWidth(m: Mode, k: nat): nat
    requires Writable(m) && k <= GroupSize(m)
  {
    match m
    case Numeric => if k == 0 then 0 else if k == 1 then 4 else if k == 2 then 7 else 10
    case Alnum => if k == 0 then 0 else if k == 1 then 6 else 11
    case EightBit => 8 * k
  }

  function CodeOf(m: Mode, c: Octet): (code: nat)
    requires Writable(m) && IsCharOf(m, c)
    ensures code < Radix(m)
  {
    match m
    case Numeric => c - 48
    case Alnum => AlnumCode(c)
    case EightBit => c
  }

  function CharOf(m: Mode, code: nat): Octet
    requires Writable(m) && code < Radix(m)
  {
    match m
    case Numeric => code + 48
    case Alnum =>
      if code < 10 then code + 48
      else if code < 36 then code + 55
      else if code == 36 then 32
      else if code == 37 then 36
      else if code == 38 then 37
      else if code == 39 then 42
      else if code == 40 then 43
      else if code == 41 then 45
      else if code == 42 then 46
      else if code == 43 then 47
      else 58
    case EightBit => code
  }

  lemma CharOfCode(m: Mode, c: Octet)
    requires Writable(m) && IsCharOf(m, c)
    ensures CharOf(m, CodeOf(m, c)) == c
  {
  }

  /** Every code has a character, so a mode has as many characters as its radix. */
  lemma CodeOfChar(m: Mode, code: nat)
    requires Writable(m) && code < Radix(m)
    ensures IsCharOf(m, CharOf(m, code)) && CodeOf(m, CharOf(m, code)) == code
  {
  }

  const DIGITS := "0123456789"
  const LETTERS := "ABCDEFGHIJKLMNOPQRSTUVWXYZ"
  const SYMBOLS := " $%*+-./:"

  /** The codes of the alphanumeric mode number digits, letters and symbols, and there are no others. */
  lemma AlphabetIs(c: Octet, k: nat)
    requires k < 45
    ensures |DIGITS + LETTERS + SYMBOLS| == 45 && (AlnumCode(c) == k <==> (DIGITS + LETTERS + SYMBOLS)[k] == c as char)
  {
    if k < 10 {
      DigitCode(c, k);
    } else if k < 36 {
      LetterCode(c, k - 10);
    } else {
      SymbolCode(c, k - 36);
    }
  }

  lemma DigitCode(c: Octet, k: nat)
    requires k < 10
    ensures |DIGITS| == 10 && (AlnumCode(c) == k <==> DIGITS[k] == c as char)
  {
  }

  lemma LetterCode(c: Octet, k: nat)
    requires k < 26
    ensures |LETTERS| == 26 && (AlnumCode(c) == 10 + k <==> LETTERS[k] == c as char)
  {
  }

  lemma SymbolCode(c: Octet, k: nat)
    requires k < 9
    ensures |SYMBOLS| == 9 && (AlnumCode(c) == 36 + k <==> SYMBOLS[k] == c as char)
  {
  }

  predicate AllCharsOf(m: Mode, data: seq<Octet>) {
    forall i :: 0 <= i < |data| ==> IsCharOf(m, data[i])
  }

  /** How many characters there are before the first that is not of the mode. */
  function FirstForeign(m: Mode, data: seq<Octet>): (n: nat)
    ensures n <= |data| && AllCharsOf(m, data[..n]) && (n < |data| ==> !IsCharOf(m, data[n]))
  {
    if data == [] || !IsCharOf(m, data[0]) then 0
    else
      var n := 1 + FirstForeign(m, data[1..]);
      assert forall i :: 0 < i < n ==> data[i] == data[1..][i - 1];
      n
  }

  /** Horner value of a group, first character most significant. */
  function GroupValue(m: Mode, data: seq<Octet>): nat
    requires Writable(m) && AllCharsOf(m, data)
  {
    if data == [] then 0
    else GroupValue(m, data[..|data| - 1]) * Radix(m) + CodeOf(m, data[|data| - 1])
  }

  function EncodeChars(m: Mode, data: seq<Octet>): seq<bool>
    requires Writable(m) && AllCharsOf(m, data)
  {
    if |data| <= GroupSize(m) then ToBits(GroupWidth(m, |data|), GroupValue(m, data))
    else ToBits(GroupWidth(m, GroupSize(m)), GroupValue(m, data[..GroupSize(m)])) + EncodeChars(m, data[GroupSize(m)..])
  }

  datatype Segment = Segment(mode: Mode, data: seq<Octet>) {
    predicate Valid() {
      Writable(mode) && data != [] && AllCharsOf(mode, data)
    }

    /** What the encoder takes into its buffer: Kanji data are not looked at until they are written. */
    predicate Storable() {
      mode != Auto && data != [] && (mode == Kanji || AllCharsOf(mode, data))
    }
  }

  function EncodeSegment(w: CountWidths, s: Segment): seq<bool>
    requires s.Valid()
  {
    ToBits(4, ModeId(s.mode)) + ToBits(w.Of(s.mode), |s.data|) + EncodeChars(s.mode, s.data)
  }

  /** What is written of a segment that has a foreign character: all before the group that it is in; of Kanji no characters. */
  function BrokenOff(w: CountWidths, m: Mode, data: seq<Octet>): seq<bool>
    requires m != Auto
  {
    ToBits(4, ModeId(m)) + ToBits(w.Of(m), if m == Kanji then |data| / 2 else |data|)
    + if m == Kanji then [] else EncodeChars(m, WholeGroups(m, data))
  }

  /** The whole groups before the first foreign character. */
  function WholeGroups(m: Mode, data: seq<Octet>): (front: seq<Octet>)
    requires Writable(m)
    ensures AllCharsOf(m, front)
  {
    var n := FirstForeign(m, data);
    data[..n - n % GroupSize(m)]
  }

  predicate AllValid(segs: seq<Segment>) {
    forall i :: 0 <= i < |segs| ==> segs[i].Valid()
  }

  predicate AllStorable(segs: seq<Segment>) {
    forall i :: 0 <= i < |segs| ==> segs[i].Storable()
  }

  function EncodeSegments(w: CountWidths, segs: seq<Segment>): seq<bool>
    requires AllValid(segs)
  {
    if segs == [] then [] else EncodeSegments(w, segs[..|segs| - 1]) + EncodeSegment(w, segs[|segs| - 1])
  }

  // ---- The reader ----

  /** The k characters whose group value is v, if v is one. */
  function GroupChars(m: Mode, k: nat, v: nat): Option<seq<Octet>>
    requires Writable(m)
  {
    if k == 0 then (if v == 0 then Some([]) else None)
    else
      match GroupChars(m, k - 1, v / Radix(m))
      case None => None
      case Some(front) => Some(front + [CharOf(m, v % Radix(m))])
  }

  datatype Read<+T> = Bad | Read(value: T, rest: seq<bool>)

  function ReadChars(m: Mode, count: nat, bits: seq<bool>): (r: Read<seq<Octet>>)
    requires Writable(m)
    ensures r.Read? ==> |r.rest| <= |bits|
    decreases count
  {
    var k := if count <= GroupSize(m) then count else GroupSize(m);
    var n := GroupWidth(m, k);
    if |bits| < n then Bad else
      match GroupChars(m, k, FromBits(bits[..n]))
      case None => Bad
      case Some(group) =>
        if k == count then Read(group, bits[n..]) else
          match ReadChars(m, count - k, bits[n..])
          case Bad => Bad
          case Read(more, rest) => Read(group + more, rest)
  }

  function ModeOfId(id: nat): Option<Mode> {
    if id == 1 then Some(Numeric) else if id == 2 then Some(Alnum) else if id == 4 then Some(EightBit) else None
  }

  function ReadSegment(w: CountWidths, bits: seq<bool>): (r: Read<Segment>)
    ensures r.Read? ==> |r.rest| < |bits|
  {
    if |bits| < 4 then Bad else
      match ModeOfId(FromBits(bits[..4]))
      case None => Bad
      case Some(m) =>
        if |bits| < 4 + w.Of(m) then Bad else
          match ReadChars(m, FromBits(bits[4..4 + w.Of(m)]), bits[4 + w.Of(m)..])
          case Bad => Bad
          case Read(data, rest) => Read(Segment(m, data), rest)
  }

  /** Reads segments up to the terminator, or until fewer than four bits are left. */
  function ReadSegments(w: CountWidths, bits: seq<bool>): Option<seq<Segment>>
    decreases |bits|
  {
    if |bits| < 4 || bits[..4] == Zeros(4) then Some([]) else
      match ReadSegment(w, bits)
      case Bad => None
      case Read(s, rest) =>
        match ReadSegments(w, rest)
        case None => None
        case Some(more) => Some([s] + more)
  }

  // ---- Reading undoes writing ----

  lemma {:induction false} GroupValueBelow(m: Mode, data: seq<Octet>)
    requires Writable(m) && AllCharsOf(m, data) && |data| <= 3
    ensures |data| == 0 ==> GroupValue(m, data) == 0
    ensures |data| == 1 ==> GroupValue(m, data) < Radix(m)
    ensures |data| == 2 ==> GroupValue(m, data) < Radix(m) * Radix(m)
    ensures |data| == 3 ==> GroupValue(m, data) < Radix(m) * Radix(m) * Radix(m)
  {
    if data != [] {
      GroupValueBelow(m, data[..|data| - 1]);
    }
  }

  lemma GroupValueBound(m: Mode, data: seq<Octet>)
    requires Writable(m) && AllCharsOf(m, data) && |data| <= GroupSize(m)
    ensures GroupValue(m, data) < Pow2(GroupWidth(m, |data|))
  {
    GroupValueBelow(m, data);
    assert Pow2(4) == 16;
    assert Pow2(7) == 128 && Pow2(6) == 64;
    assert Pow2(8) == 256 by { assert Pow2(4) == 16; }
    assert Pow2(10) == 1024 by { assert Pow2(8) == 256; }
    assert Pow2(11) == 2048 by { assert Pow2(10) == 1024; }
  }

  lemma {:induction false} GroupCharsOfValue(m: Mode, data: seq<Octet>)
    requires Writable(m) && AllCharsOf(m, data)
    ensures GroupChars(m, |data|, GroupValue(m, data)) == Some(data)
  {
    if data != [] {
      var front, last := data[..|data| - 1], data[|data| - 1];
      LastDigit(m, GroupValue(m, front), CodeOf(m, last));
      GroupCharsOfValue(m, front);
      CharOfCode(m, last);
      assert data == front + [last];
    }
  }

  lemma LastDigit(m: Mode, v: nat, c: nat)
    requires Writable(m) && c < Radix(m)
    ensures (v * Radix(m) + c) / Radix(m) == v && (v * Radix(m) + c) % Radix(m) == c
  {
    match m
    case Numeric =>
    case Alnum =>
    case EightBit =>
  }

  lemma ReadGroup(m: Mode, count: nat, group: seq<Octet>, rest: seq<bool>)
    requires Writable(m) && AllCharsOf(m, group)
    requires |group| == if count <= GroupSize(m) then count else GroupSize(m)
    ensures var head := ToBits(GroupWidth(m, |group|), GroupValue(m, group));
            ReadChars(m, count, head + rest) ==
            if |group| == count then Read(group, rest) else
              match ReadChars(m, count - |group|, rest)
              case Bad => Bad
              case Read(more, tail) => Read(group + more, tail)
  {
    var head := ToBits(GroupWidth(m, |group|), GroupValue(m, group));
    GroupValueBound(m, group);
    FromToBits(|head|, GroupValue(m, group));
    GroupCharsOfValue(m, group);
    TakeDrop(head, rest);
  }

  lemma EncodeGroup(m: Mode, data: seq<Octet>)
    requires Writable(m) && AllCharsOf(m, data) && |data| > GroupSize(m)
    ensures AllCharsOf(m, data[..GroupSize(m)]) && AllCharsOf(m, data[GroupSize(m)..])
    ensures EncodeChars(m, data) ==
            ToBits(GroupWidth(m, GroupSize(m)), GroupValue(m, data[..GroupSize(m)])) + EncodeChars(m, data[GroupSize(m)..])
  {
  }

  lemma {:induction false} ReadCharsOfEncoded(m: Mode, data: seq<Octet>, tail: seq<bool>)
    requires Writable(m) && AllCharsOf(m, data)
    ensures ReadChars(m, |data|, EncodeChars(m, data) + tail) == Read(data, tail)
    decreases |data|
  {
    if |data| <= GroupSize(m) {
      ReadGroup(m, |data|, data, tail);
    } else {
      var g := GroupSize(m);
      EncodeGroup(m, data);
      var head, body := ToBits(GroupWidth(m, g), GroupValue(m, data[..g])), EncodeChars(m, data[g..]);
      ReadCharsOfEncoded(m, data[g..], tail);
      calc {
        ReadChars(m, |data|, EncodeChars(m, data) + tail);
        { Regroup(head, body, tail); }
        ReadChars(m, |data|, head + (body + tail));
        { ReadGroup(m, |data|, data[..g], body + tail); }
        Read(data[..g] + data[g..], tail);
        { assert data[..g] + data[g..] == data; }
        Read(data, tail);
      }
    }
  }

  /** The count of characters can be written in the count indicator. */
  predicate CountFits(w: CountWidths, s: Segment) {
    s.mode != Auto && |s.data| < Pow2(w.Of(s.mode))
  }

  lemma ModeRoundTrip(m: Mode)
    requires Writable(m)
    ensures ModeOfId(FromBits(ToBits(4, ModeId(m)))) == Some(m)
    ensures ToBits(4, ModeId(m)) != Zeros(4)
  {
    assert Pow2(4) == 16;
    FromToBits(4, ModeId(m));
    FromToBits(4, 0);
    ToBitsOfZero(4);
  }

  lemma ReadSegmentStep(w: CountWidths, m: Mode, id: seq<bool>, count: seq<bool>, chars: seq<bool>, data: seq<Octet>, rest: seq<bool>)
    requires m != Auto && |id| == 4 && |count| == w.Of(m) && ModeOfId(FromBits(id)) == Some(m)
    requires ReadChars(m, FromBits(count), chars) == Read(data, rest)
    ensures ReadSegment(w, id + (count + chars)) == Read(Segment(m, data), rest)
  {
    hide FromBits, ReadChars;
    var bits := id + (count + chars);
    TakeDrop(id, count + chars);
    TakeDrop(count, chars);
    assert bits[4..4 + |count|] == count && bits[4 + |count|..] == chars;
  }

  lemma ReadSegmentOfEncoded(w: CountWidths, s: Segment, tail: seq<bool>)
    requires s.Valid() && CountFits(w, s)
    ensures ReadSegment(w, EncodeSegment(w, s) + tail) == Read(s, tail)
  {
    hide ReadSegment, EncodeChars, ToBits, FromBits, ReadChars, ModeOfId, ModeId, AlnumCode;
    var id, count, chars := ToBits(4, ModeId(s.mode)), ToBits(w.Of(s.mode), |s.data|), EncodeChars(s.mode, s.data);
    Regroup(id + count, chars, tail);
    Regroup(id, count, chars + tail);
    ModeRoundTrip(s.mode);
    FromToBits(w.Of(s.mode), |s.data|);
    ReadCharsOfEncoded(s.mode, s.data, tail);
    ReadSegmentStep(w, s.mode, id, count, chars + tail, s.data, tail);
  }

  lemma ModeIsNotTerminator(w: CountWidths, s: Segment, tail: seq<bool>)
    requires s.Valid()
    ensures |EncodeSegment(w, s) + tail| >= 4
    ensures (EncodeSegment(w, s) + tail)[..4] != Zeros(4)
  {
    assert (EncodeSegment(w, s) + tail)[..4] == ToBits(4, ModeId(s.mode));
    ModeRoundTrip(s.mode);
  }

  lemma {:induction false} EncodeSegmentsCons(w: CountWidths, segs: seq<Segment>)
    requires AllValid(segs) && segs != []
    ensures EncodeSegments(w, segs) == EncodeSegment(w, segs[0]) + EncodeSegments(w, segs[1..])
  {
    var front, last := segs[..|segs| - 1], segs[|segs| - 1];
    if |segs| == 1 {
      assert EncodeSegments(w, front) == [];
      assert EncodeSegments(w, segs[1..]) == [];
    } else {
      EncodeSegmentsCons(w, front);
      var rest := segs[1..];
      assert rest[..|rest| - 1] == front[1..] && rest[|rest| - 1] == last;
      Regroup(EncodeSegment(w, segs[0]), EncodeSegments(w, front[1..]), EncodeSegment(w, last));
    }
  }

  /** What ends a stream for the reader: nothing worth four bits, or the terminator. */
  predicate EndsStream(tail: seq<bool>) {
    |tail| < 4 || tail[..4] == Zeros(4)
  }

  lemma ReadSegmentsStep(w: CountWidths, bits: seq<bool>, s: Segment, rest: seq<bool>, more: seq<Segment>)
    requires |bits| >= 4 && bits[..4] != Zeros(4) && ReadSegment(w, bits) == Read(s, rest)
    requires ReadSegments(w, rest) == Some(more)
    ensures ReadSegments(w, bits) == Some([s] + more)
  {
    hide ReadSegment;
  }

  lemma {:induction false} ReadSegmentsOfEncoded(w: CountWidths, segs: seq<Segment>, tail: seq<bool>)
    requires AllValid(segs) && EndsStream(tail)
    requires forall i :: 0 <= i < |segs| ==> CountFits(w, segs[i])
    ensures ReadSegments(w, EncodeSegments(w, segs) + tail) == Some(segs)
    decreases |segs|
  {
    if segs == [] {
      assert EncodeSegments(w, segs) + tail == tail;
    } else {
      hide EncodeSegment, EncodeSegments, ReadSegment, ReadSegments, CountFits, EndsStream, Zeros;
      var head, body := EncodeSegment(w, segs[0]), EncodeSegments(w, segs[1..]);
      EncodeSegmentsCons(w, segs);
      Regroup(head, body, tail);
      ReadSegmentOfEncoded(w, segs[0], body + tail);
      ModeIsNotTerminator(w, segs[0], body + tail);
      ReadSegmentsOfEncoded(w, segs[1..], tail);
      ReadSegmentsStep(w, head + (body + tail), segs[0], body + tail, segs[1..]);
      assert segs == [segs[0]] + segs[1..];
    }
  }

  // ---- Lengths ----

  /** Data bits of `size` characters: groups, then the remainder. */
  function DataLength(m: Mode, size: nat): nat
    requires m != Auto
  {
    match m
    case Numeric => (size / 3) * 10 + (if size % 3 == 1 then 4 else if size % 3 == 2 then 7 else 0)
    case Alnum => (size / 2) * 11 + (if size % 2 == 1 then 6 else 0)
    case EightBit => size * 8
    case Kanji => (size / 2) * 13
  }

  function EncodedLength(w: CountWidths, size: nat, m: Mode): nat
    requires m != Auto
  {
    4 + w.Of(m) + DataLength(m, size)
  }

  /** Most characters that fit in `size` bits, header included. */
  function EncodableLength(w: CountWidths, size: int, m: Mode): nat
    requires m != Auto
  {
    var n := size - 4 - w.Of(m);
    if n <= 0 then 0 else
      match m
      case Numeric => (n / 10) * 3 + (if n % 10 >= 7 then 2 else if n % 10 >= 4 then 1 else 0)
      case Alnum => (n / 11) * 2 + (if n % 11 >= 6 then 1 else 0)
      case EightBit => n / 8
      case Kanji => (n / 13) * 2
  }

  lemma {:induction false} EncodeCharsLength(m: Mode, data: seq<Octet>)
    requires Writable(m) && AllCharsOf(m, data)
    ensures |EncodeChars(m, data)| == DataLength(m, |data|)
    decreases |data|
  {
    if |data| > GroupSize(m) {
      EncodeCharsLength(m, data[GroupSize(m)..]);
    }
  }

  lemma EncodeSegmentLength(w: CountWidths, s: Segment)
    requires s.Valid()
    ensures |EncodeSegment(w, s)| == EncodedLength(w, |s.data|, s.mode)
  {
    EncodeCharsLength(s.mode, s.data);
  }

  /** For a positive number of characters the two length functions are exact adjoints. */
  lemma LengthAdjoint(w: CountWidths, size: nat, limit: int, m: Mode)
    requires Writable(m) && size > 0
    ensures EncodedLength(w, size, m) <= limit <==> size <= EncodableLength(w, limit, m)
  {
  }

  /**
   Kanji takes two bytes a character: for even sizes the two are adjoint, for an odd size only when the limit leaves room for
   neither or for both of the characters around it.
   */
  lemma KanjiAdjointIff(w: CountWidths, size: nat, limit: int)
    requires size > 0
    ensures var n := limit - 4 - w.Of(Kanji);
            (EncodedLength(w, size, Kanji) <= limit <==> size <= EncodableLength(w, limit, Kanji)) <==>
            size % 2 == 0 || n < 13 * (size / 2) || n >= 13 * (size / 2 + 1)
  {
  }

  /** Three bytes count as one character, and a limit with room for just that one is said to hold two bytes. */
  lemma KanjiLengthNotAdjoint(w: CountWidths)
    ensures EncodedLength(w, 3, Kanji) <= 17 + w.Of(Kanji) && 3 > EncodableLength(w, 17 + w.Of(Kanji), Kanji)
  {
  }

  lemma {:induction false} DataLengthMonotone(m: Mode, a: nat, b: nat)
    requires m != Auto && a <= b
    ensures DataLength(m, a) <= DataLength(m, b)
  {
  }

  /** Sum of the encoded lengths of a list of segments. */
  function TotalLength(w: CountWidths, segs: seq<Segment>): nat
    requires AllStorable(segs)
  {
    if segs == [] then 0
    else TotalLength(w, segs[..|segs| - 1]) + EncodedLength(w, |segs[|segs| - 1].data|, segs[|segs| - 1].mode)
  }

  lemma {:induction false} EncodeSegmentsLength(w: CountWidths, segs: seq<Segment>)
    requires AllValid(segs)
    ensures |EncodeSegments(w, segs)| == TotalLength(w, segs)
  {
    if segs != [] {
      EncodeSegmentsLength(w, segs[..|segs| - 1]);
      EncodeSegmentLength(w, segs[|segs| - 1]);
    }
  }

  lemma {:induction false} SegmentWithinTotal(w: CountWidths, segs: seq<Segment>, i: nat)
    requires AllStorable(segs) && i < |segs|
    ensures EncodedLength(w, |segs[i].data|, segs[i].mode) <= TotalLength(w, segs)
  {
    if i < |segs| - 1 {
      SegmentWithinTotal(w, segs[..|segs| - 1], i);
    }
  }
}
