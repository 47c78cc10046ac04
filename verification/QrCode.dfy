/**
 One symbol under construction (ISO/IEC 18004:2015, section 7): data are written as a bit stream, or buffered while the
 version is still open; finalizing chooses the version, completes the stream, adds error correction, and draws.
 */
module QrCodes {
  import opened Bits
  import opened Options
  import opened Segments
  import opened Records
  import opened VersionTable
  import opened DataStream
  import opened Modules
  import opened Placement
  import opened FunctionPattern
  import opened PatternDrawing
  import opened Masking
  import opened FormatInfo
  import opened CodewordBlocks
  import opened SymbolReader
  import opened VersionChoice
  import Capacities
  import opened ReadBack
  import Penalty
  import RS = ReedSolomon
  import Syndromes

  datatype Error =
    WrongState | EmptySource | InvalidMode | InvalidVersion | InvalidLevel | InvalidMask | InvalidCount | TooLarge
    | NotNumeric | NotAlnum | NotKanji

  datatype Outcome = Ok | Failed(error: Error)

  datatype State = Begin | Set | Final

  // ---- Modes ----

  /** First place whose character does not belong to the mode, or -1. */
  method FirstNotOf(m: Mode, data: seq<Octet>) returns (pos: int)
    requires m == Numeric || m == Alnum
    ensures pos == -1 <==> AllCharsOf(m, data)
    ensures pos != -1 ==> 0 <= pos < |data| && !IsCharOf(m, data[pos]) && AllCharsOf(m, data[..pos])
  {
    pos := 0;
    while pos < |data|
      invariant 0 <= pos <= |data| && AllCharsOf(m, data[..pos])
    {
      if !IsCharOf(m, data[pos]) {
        return;
      }
      pos := pos + 1;
    }
    pos := -1;
  }

  /** The tightest mode for the data. */
  function DetectedMode(data: seq<Octet>): Mode {
    if AllCharsOf(Numeric, data) then Numeric else if AllCharsOf(Alnum, data) then Alnum else EightBit
  }

  method DetectDataType(data: seq<Octet>) returns (m: Mode)
    ensures m == DetectedMode(data)
    ensures AllCharsOf(m, data) && Writable(m)
    ensures forall other :: Writable(other) && AllCharsOf(other, data) ==> DataLength(m, |data|) <= DataLength(other, |data|)
  {
    hide AlnumCode;
    NumericIsAlnum(data);
    var pos := FirstNotOf(Numeric, data);
    if pos == -1 {
      return Numeric;
    }
    pos := FirstNotOf(Alnum, data);
    if pos == -1 {
      return Alnum;
    }
    m := EightBit;
  }

  lemma NumericIsAlnum(data: seq<Octet>)
    ensures AllCharsOf(Numeric, data) ==> AllCharsOf(Alnum, data)
  {
  }

  /** The mode that a number asks for; -1 asks for detection. */
  function RequestedMode(number: int, data: seq<Octet>): (m: Option<Mode>)
    ensures m.Some? ==> m.value != Auto
  {
    if number == -1 then Some(DetectedMode(data)) else ModeOfNumber(number)
  }

  function CharError(m: Mode): Error
    requires m != Auto && m != EightBit
  {
    match m
    case Numeric => NotNumeric
    case Alnum => NotAlnum
    case Kanji => NotKanji
  }

  /** What an add is answered, before anything is written. */
  function Verdict(state: State, version: int, level: nat, enclen: int, data: seq<Octet>, number: int): Outcome
    requires (version == -1 || IsVersion(version)) && level < 4
  {
    if state == Final then Failed(WrongState)
    else if data == [] then Failed(EmptySource)
    else
      match RequestedMode(number, data)
      case None => Failed(InvalidMode)
      case Some(m) =>
        if enclen + EncodedLength(Widths(Nominal(version)), |data|, m) > Capacity(Nominal(version), level) then Failed(TooLarge)
        else if m == Kanji then (if version == -1 then Ok else Failed(NotKanji))
        else if AllCharsOf(m, data) then Ok
        else Failed(CharError(m))
  }

  /** A first add is too large exactly when it has more characters than the version table says for level and mode. */
  predicate AgreesWithTable(r: Outcome, state: State, version: int, level: nat, enclen: int, data: seq<Octet>, number: int)
    requires (version == -1 || IsVersion(version)) && level < 4
  {
    var m := RequestedMode(number, data);
    state != Final && enclen == 0 && data != [] && m.Some? && Writable(m.value) ==>
      (r == Failed(TooLarge) <==> |data| > Capacities.CharsOf(Nominal(version)).At(level).Of(m.value))
  }

  lemma VerdictAgrees(state: State, version: int, level: nat, enclen: int, data: seq<Octet>, number: int)
    requires (version == -1 || IsVersion(version)) && level < 4
    ensures AgreesWithTable(Verdict(state, version, level, enclen, data, number), state, version, level, enclen, data, number)
  {
    var m := RequestedMode(number, data);
    if data != [] && m.Some? && Writable(m.value) {
      Capacities.FitsByTable(Nominal(version), level, m.value, |data|);
    }
    hide RequestedMode, Capacities.CharsOf, Capacity, EncodedLength, Widths, AlnumCode;
  }

  predicate IsCharError(r: Outcome) {
    r == Failed(NotNumeric) || r == Failed(NotAlnum) || r == Failed(NotKanji)
  }

  /** What is counted and kept of the segments added while the version is open. */
  ghost predicate OpenCount(level: nat, segs: seq<Segment>, rejected: nat, source: seq<Octet>, enclen: int, delta1: int, delta2: int)
    requires level < 4 && AllStorable(segs)
  {
    && enclen == TotalLength(Widths(MAX_VERSION), segs) && enclen <= Capacity(MAX_VERSION, level)
    && source == RecordsOf(segs)
    && delta1 == enclen - TotalLength(Widths(VERPOINT1), segs) + 4 * rejected
    && delta2 == enclen - TotalLength(Widths(VERPOINT2), segs) + 2 * rejected
  }

  lemma OneMoreAdded(level: nat, segs: seq<Segment>, rejected: nat, source: seq<Octet>, enclen: int, delta1: int, delta2: int,
                     s: Segment)
    requires level < 4 && AllStorable(segs) && s.Storable()
    requires OpenCount(level, segs, rejected, source, enclen, delta1, delta2)
    requires enclen + EncodedLength(Widths(MAX_VERSION), |s.data|, s.mode) <= Capacity(MAX_VERSION, level)
    ensures segs + [s] != [] && AllStorable(segs + [s])
    ensures OpenCount(level, segs + [s], rejected, source + Record(s),
                      enclen + EncodedLength(Widths(MAX_VERSION), |s.data|, s.mode),
                      delta1 + Widths(MAX_VERSION).Of(s.mode) - Widths(VERPOINT1).Of(s.mode),
                      delta2 + Widths(MAX_VERSION).Of(s.mode) - Widths(VERPOINT2).Of(s.mode))
  {
    hide Widths, TotalLength, EncodedLength, Capacity, RecordsOf, Record;
    RecordsAppend(segs, s);
    DeltaStep(Widths(VERPOINT1), Widths(MAX_VERSION), segs, s);
    DeltaStep(Widths(VERPOINT2), Widths(MAX_VERSION), segs, s);
  }

  lemma OneMoreRejected(level: nat, segs: seq<Segment>, rejected: nat, source: seq<Octet>, enclen: int, delta1: int, delta2: int,
                        m: Mode)
    requires level < 4 && AllStorable(segs) && (m == Numeric || m == Alnum)
    requires OpenCount(level, segs, rejected, source, enclen, delta1, delta2)
    ensures OpenCount(level, segs, rejected + 1, source, enclen,
                      delta1 + Widths(MAX_VERSION).Of(m) - Widths(VERPOINT1).Of(m),
                      delta2 + Widths(MAX_VERSION).Of(m) - Widths(VERPOINT2).Of(m))
  {
    DriftOfOne(m);
    hide Widths, TotalLength, Capacity, RecordsOf;
  }

  lemma OneMoreCounted(level: nat, segs: seq<Segment>, rejected: nat, source: seq<Octet>, enclen: int, delta1: int, delta2: int,
                       s: Segment)
    requires level < 4 && AllStorable(segs) && s.mode != Auto && s.data != []
    requires OpenCount(level, segs, rejected, source, enclen, delta1, delta2)
    requires enclen + EncodedLength(Widths(MAX_VERSION), |s.data|, s.mode) <= Capacity(MAX_VERSION, level)
    ensures var d1 := delta1 + Widths(MAX_VERSION).Of(s.mode) - Widths(VERPOINT1).Of(s.mode);
            var d2 := delta2 + Widths(MAX_VERSION).Of(s.mode) - Widths(VERPOINT2).Of(s.mode);
            if s.mode == Kanji || AllCharsOf(s.mode, s.data) then
              && s.Storable() && segs + [s] != [] && AllStorable(segs + [s])
              && OpenCount(level, segs + [s], rejected, source + Record(s),
                           enclen + EncodedLength(Widths(MAX_VERSION), |s.data|, s.mode), d1, d2)
            else
              s.mode != EightBit && OpenCount(level, segs, rejected + 1, source, enclen, d1, d2)
  {
    hide OpenCount, Widths, EncodedLength, Capacity, AlnumCode, Record;
    AllBytes(s.data);
    if s.Storable() {
      OneMoreAdded(level, segs, rejected, source, enclen, delta1, delta2, s);
    } else {
      OneMoreRejected(level, segs, rejected, source, enclen, delta1, delta2, s.mode);
    }
  }

  class QrCode {
    const level: nat
    const dataword: array<bv8>
    const ecword: array<bv8>
    const codeword: array<bv8>
    var version: int
    var mode: int
    var mask: int
    var symbol: array<bv8>
    var source: seq<Octet>
    var enclen: int
    var delta1: int
    var delta2: int
    var dwpos: int
    var dwbit: int
    var xpos: int
    var ypos: int
    var xdir: int
    var ydir: int
    var state: State

    /** Bits before the first segment, the segments added, and how many buffered adds failed over their characters. */
    ghost var head: seq<bool>
    ghost var segs: seq<Segment>
    ghost var rejected: nat

    ghost predicate Shaped() {
      && level < 4
      && dataword.Length == MAX_DATA_WORDS && ecword.Length == MAX_EC_WORDS && codeword.Length == MAX_CODE_WORDS
      && dataword != ecword && dataword != codeword && ecword != codeword
    }

    /** What is counted of the segments added, and what is kept of them while the version is open. */
    ghost predicate Counted()
      requires level < 4 && (version == -1 || IsVersion(version)) && AllStorable(segs)
      reads this
    {
      if version == -1 then
        head == [] && OpenCount(level, segs, rejected, source, enclen, delta1, delta2)
      else
        && AllValid(segs) && rejected == 0
        && enclen == TotalLength(Widths(version), segs) && |head| + enclen <= Capacity(version, level)
    }

    /** The bits of the segments, after those that were there before them. */
    ghost function Stream(): seq<bool>
      requires IsVersion(version) && AllValid(segs)
      reads this`head, this`segs, this`version
    {
      head + EncodeSegments(Widths(version), segs)
    }

    /** What holds between calls. */
    ghost predicate Valid()
      reads this, dataword, symbol
    {
      && Shaped() && symbol != dataword && symbol != ecword && symbol != codeword
      && (version == -1 || IsVersion(version)) && -1 <= mask < MASKS && AllStorable(segs)
      && (state == Begin <==> segs == [])
      && (state != Final ==> Counted())
      && (state == Begin ==> head == [])
      && (state == Set && version != -1 ==> Holds(Stream()))
      && (state == Final ==>
            && IsVersion(version) && mask >= 0 && AllValid(segs)
            && Shows(Colours(symbol[..]), version, level, mask, Completed(Stream(), Capacity(version, level))))
    }

    constructor (version: int, mode: int, level: nat, mask: int)
      requires (version == -1 || IsVersion(version)) && level < 4 && -1 <= mask < MASKS
      ensures Valid() && state == Begin && rejected == 0 && (version != -1 ==> Empty())
      ensures this.version == version && this.mode == mode && this.level == level && this.mask == mask
      ensures fresh(dataword) && fresh(ecword) && fresh(codeword) && fresh(symbol)
    {
      this.version, this.mode, this.level, this.mask := version, mode, level, mask;
      dataword := new bv8[MAX_DATA_WORDS](_ => 0);
      ecword := new bv8[MAX_EC_WORDS](_ => 0);
      codeword := new bv8[MAX_CODE_WORDS](_ => 0);
      symbol := new bv8[0];
      source, enclen, delta1, delta2 := [], 0, 0, 0;
      dwpos, dwbit, xpos, ypos, xdir, ydir := 0, 0, 0, 0, 0, 0;
      state := Begin;
      head, segs, rejected := [], [], 0;
    }

    /** A symbol for the given parameters, or why they will not do; the first that is wrong is reported. */
    static method Init(version: int, mode: int, level: int, mask: int) returns (qr: QrCode?, r: Outcome)
      ensures r == (if version != -1 && !IsVersion(version) then Failed(InvalidVersion)
                    else if mode != -1 && ModeOfNumber(mode) == None then Failed(InvalidMode)
                    else if !(0 <= level < 4) then Failed(InvalidLevel)
                    else if mask != -1 && !(0 <= mask < MASKS) then Failed(InvalidMask)
                    else Ok)
      ensures r.Ok? <==> qr != null
      ensures qr != null ==>
                && qr.Valid() && qr.state == Begin && qr.rejected == 0 && (version != -1 ==> qr.Empty())
                && qr.version == version && qr.mode == mode && qr.level == level && qr.mask == mask
                && fresh(qr) && fresh(qr.dataword) && fresh(qr.ecword) && fresh(qr.codeword) && fresh(qr.symbol)
    {
      qr := null;
      if !(version == -1 || IsVersion(version)) {
        return null, Failed(InvalidVersion);
      }
      if !(mode == -1 || 0 <= mode < 4) {
        return null, Failed(InvalidMode);
      }
      if !(0 <= level < 4) {
        return null, Failed(InvalidLevel);
      }
      if !(mask == -1 || 0 <= mask < MASKS) {
        return null, Failed(InvalidMask);
      }
      qr := new QrCode(version, mode, level, mask);
      r := Ok;
    }

    /** The stream so far is bits, and the cursor stands at its end. */
    ghost predicate Holds(bits: seq<bool>)
      reads this`dwpos, this`dwbit, dataword
    {
      0 <= dwpos && 0 <= dwbit < 8 && CursorOf(dwpos, dwbit) == |bits| && Written(dataword[..], bits)
    }

    // ---- Adding data ----

    /** Adds in the mode given at the start. */
    method AddData(data: seq<Octet>) returns (r: Outcome)
      requires Valid() && head == []
      modifies this, dataword
      ensures r == Verdict(old(state), old(version), level, old(enclen), data, old(mode))
      ensures Added(r, data, old(mode), old(segs), old(rejected), old(state), old(version))
      ensures IsCharError(r) && old(version) != -1 ==> Spoilt(data, old(mode), old(enclen), old(state), old(dwpos), old(dwbit))
    {
      hide LevelOf, Widths, TotalLength, EncodeSegments, EncodeSegment, EncodedLength, DataLength, Shows, Colours, Written, RecordsOf,
           AlnumCode, Completed, BitStream, Dimension;
      if state == Final {
        return Failed(WrongState);
      }
      r := AddDataAs(data, mode);
    }

    /** What an add leaves behind, given what was there before. */
    ghost predicate Added(r: Outcome, data: seq<Octet>, number: int, segs0: seq<Segment>, rejected0: nat, state0: State, version0: int)
      reads this, dataword, symbol
    {
      && version == version0 && head == []
      && (r.Ok? ==>
            && RequestedMode(number, data).Some?
            && segs == segs0 + [Segment(RequestedMode(number, data).value, data)]
            && rejected == rejected0 && state == Set && Valid())
      && (r.Failed? ==>
            && segs == segs0 && state == state0
            && (!IsCharError(r) ==> rejected == rejected0 && Valid())
            && (IsCharError(r) && version == -1 ==> rejected == rejected0 + 1 && Valid()))
    }

    /**
     What a failed add leaves of a symbol of a given version: it is counted all the same, the buffer holds it as far as it was
     written, and the cursor comes back exchanged.
     */
    ghost predicate Spoilt(data: seq<Octet>, number: int, enclen0: int, state0: State, dwpos0: int, dwbit0: int)
      reads this, dataword
    {
      && IsVersion(version) && AllValid(segs) && RequestedMode(number, data).Some?
      && var m, w := RequestedMode(number, data).value, Widths(version);
         && enclen == enclen0 + EncodedLength(w, |data|, m)
         && (if state0 == Begin then dwpos == 7 && dwbit == 0 else dwpos == dwbit0 && dwbit == dwpos0)
         && Written(dataword[..], Stream() + BrokenOff(w, m, data))
    }

    method AddDataAs(data: seq<Octet>, number: int) returns (r: Outcome)
      requires Valid() && head == []
      modifies this, dataword
      ensures r == Verdict(old(state), old(version), level, old(enclen), data, number)
      ensures AgreesWithTable(r, old(state), old(version), level, old(enclen), data, number)
      ensures Added(r, data, number, old(segs), old(rejected), old(state), old(version))
      ensures IsCharError(r) && old(version) != -1 ==> Spoilt(data, number, old(enclen), old(state), old(dwpos), old(dwbit))
    {
      hide LevelOf, Widths, TotalLength, EncodeSegments, EncodeSegment, EncodedLength, DataLength, Shows, Colours, Written, RecordsOf,
           AlnumCode, Completed, BitStream, Dimension;
      hide Holds, Counted, BrokenOff, AllCharsOf, FirstForeign, AgreesWithTable;
      VerdictAgrees(state, version, level, enclen, data, number);
      if state == Final {
        return Failed(WrongState);
      }
      if data == [] {
        return Failed(EmptySource);
      }
      var m := Auto;
      if number == -1 {
        m := DetectDataType(data);
      } else {
        var known := ModeOfNumber(number);
        if known == None {
          return Failed(InvalidMode);
        }
        m := known.value;
      }
      var v := Nominal(version);
      var len := EncodedLength(Widths(v), |data|, m);
      if enclen + len > Capacity(v, level) {
        return Failed(TooLarge);
      }
      if version == -1 {
        r := Buffer(data, m, len);
      } else {
        GivenMeans();
        r := Write(data, m, len);
      }
    }

    /** Lengths are counted for the version, or the largest one while it is open. */
    lemma CountedLength()
      requires Valid() && state != Final
      ensures AllStorable(segs) && enclen == TotalLength(Widths(Nominal(version)), segs)
    {
      hide Holds, Shows, TotalLength, Widths, Capacity;
    }

    lemma GivenMeans()
      requires Valid() && version != -1 && state != Final
      ensures IsVersion(version) && AllValid(segs) && enclen == TotalLength(Widths(version), segs)
      ensures |head| + enclen <= Capacity(version, level)
    {
      hide Holds, Shows, TotalLength, Widths, Capacity;
    }

    /**
     Buffers the data of a symbol whose version is open. The corrections are made before the characters are looked at,
     and not undone when those turn out wrong.
     */
    method Buffer(data: seq<Octet>, m: Mode, len: nat) returns (r: Outcome)
      requires Valid() && version == -1 && state != Final && m != Auto && data != []
      requires len == EncodedLength(Widths(MAX_VERSION), |data|, m) && enclen + len <= Capacity(MAX_VERSION, level)
      modifies this`enclen, this`delta1, this`delta2, this`source, this`state, this`segs, this`rejected
      ensures r == if m == Kanji || AllCharsOf(m, data) then Ok else Failed(CharError(m))
      ensures r.Ok? ==> segs == old(segs) + [Segment(m, data)] && rejected == old(rejected) && state == Set && Valid()
      ensures !r.Ok? ==> segs == old(segs) && rejected == old(rejected) + 1 && state == old(state) && Valid()
    {
      hide AllStorable, AllValid, AllCharsOf, Capacity, Record, OpenCount, Widths, EncodedLength, Shows, Colours, AlnumCode, Holds,
           Completed, Dimension;
      ghost var s := Segment(m, data);
      OneMoreCounted(level, segs, rejected, source, enclen, delta1, delta2, s);
      delta1, delta2 := delta1 + Widths(MAX_VERSION).Of(m) - Widths(VERPOINT1).Of(m),
                        delta2 + Widths(MAX_VERSION).Of(m) - Widths(VERPOINT2).Of(m);
      var pos := -1;
      if m == Numeric || m == Alnum {
        pos := FirstNotOf(m, data);
      }
      if pos != -1 {
        rejected := rejected + 1;
        return Failed(if m == Numeric then NotNumeric else NotAlnum);
      }
      enclen, source, state := enclen + len, source + Record(Segment(m, data)), Set;
      segs := segs + [s];
      r := Ok;
    }

    /** A stream that is being written, with everything counted. */
    ghost predicate Ready()
      reads this, dataword
    {
      && Shaped() && IsVersion(version) && -1 <= mask < MASKS && AllValid(segs)
      && state != Final && (state == Begin <==> segs == [])
      && rejected == 0 && enclen == TotalLength(Widths(version), segs) && |head| + enclen <= Capacity(version, level)
      && Holds(Stream())
      && symbol != dataword && symbol != ecword && symbol != codeword
    }

    lemma ReadyIsValid()
      requires Ready() && state == Set
      ensures Valid()
    {
      hide LevelOf, Widths, Holds, TotalLength, Shows;
    }

    /** A symbol of a given version that nothing has been added to. */
    ghost predicate Empty()
      reads this
    {
      && Shaped() && IsVersion(version) && -1 <= mask < MASKS
      && segs == [] && rejected == 0 && enclen == 0 && state == Begin && head == []
      && symbol != dataword && symbol != ecword && symbol != codeword
    }

    /** What no two symbols share. */
    ghost function Parts(): set<object> {
      {this, dataword, ecword, codeword}
    }

    /** Writes the data of a symbol whose version is given. */
    method Write(data: seq<Octet>, m: Mode, len: nat) returns (r: Outcome)
      requires Valid() && head == [] && version != -1 && state != Final && m != Auto && data != []
      requires len == EncodedLength(Widths(version), |data|, m) && enclen + len <= Capacity(version, level)
      modifies this`enclen, this`dwpos, this`dwbit, this`state, this`segs, dataword
      ensures r == if Segment(m, data).Valid() then Ok else Failed(CharError(m))
      ensures r.Ok? ==> segs == old(segs) + [Segment(m, data)] && state == Set && Valid()
      ensures !r.Ok? ==> segs == old(segs) && state == old(state) && enclen == old(enclen) + len
      ensures !r.Ok? ==> if old(state) == Set then dwpos == old(dwbit) && dwbit == old(dwpos) else dwpos == 7 && dwbit == 0
      ensures !r.Ok? ==> Written(dataword[..], Stream() + BrokenOff(Widths(version), m, data))
    {
      hide BrokenOff;
      hide LevelOf, Widths, TotalLength, EncodeSegments, EncodedLength, Shows, Colours, Written, AlnumCode, Completed, Dimension, Holds,
           OpenCount;
      if state == Begin {
        InitDataWord();
        NoSegments(Widths(version), head);
      }
      r := WriteOn(data, m, len);
    }

    /** Writes at the end of the stream. */
    method WriteOn(data: seq<Octet>, m: Mode, len: nat) returns (r: Outcome)
      requires Ready() && m != Auto && data != []
      requires len == EncodedLength(Widths(version), |data|, m) && |head| + enclen + len <= Capacity(version, level)
      modifies this`enclen, this`dwpos, this`dwbit, this`state, this`segs, dataword
      ensures r == if Segment(m, data).Valid() then Ok else Failed(CharError(m))
      ensures r.Ok? ==> segs == old(segs) + [Segment(m, data)] && state == Set && Ready()
      ensures !r.Ok? ==> segs == old(segs) && state == old(state) && enclen == old(enclen) + len
      ensures !r.Ok? ==> dwpos == old(dwbit) && dwbit == old(dwpos)
      ensures !r.Ok? ==> Written(dataword[..], Stream() + BrokenOff(Widths(version), m, data))
    {
      hide BrokenOff;
      hide LevelOf, Widths, TotalLength, EncodeSegments, EncodeSegment, EncodedLength, DataLength, Shows, Colours, Written, RecordsOf,
           AlnumCode, Completed, BitStream, Dimension;
      hide Holds;
      enclen := enclen + len;
      RoomInBuffer(version, level);
      StreamLength(head, Widths(version), segs);
      ghost var s := Segment(m, data);
      r := EncodeDataWord(m, data, Stream());
      if r.Ok? {
        state := Set;
        StreamGrows(head, Widths(version), segs, s);
        DeltaStep(Widths(version), Widths(version), segs, s);
        segs := segs + [s];
      }
    }

    // ---- The header of a symbol that is part of a message ----

    /** Twenty zero bits hold the place of the header. */
    method StartHeader()
      requires Empty()
      modifies this`dwpos, this`dwbit, this`head, dataword
      ensures Ready() && head == Zeros(HEADER_BITS)
    {
      hide *;
      EmptyMeans();
      InitDataWord();
      Append(4, 0, []);
      Append(4, 0, [] + ToBits(4, 0));
      Append(4, 0, [] + ToBits(4, 0) + ToBits(4, 0));
      Append(8, 0, [] + ToBits(4, 0) + ToBits(4, 0) + ToBits(4, 0));
      ZeroHeader();
      head := Zeros(HEADER_BITS);
      StartedIsReady();
    }

    lemma EmptyMeans()
      requires Empty()
      ensures Shaped() && IsVersion(version) && -1 <= mask < MASKS && segs == [] && rejected == 0 && enclen == 0 && state == Begin
      ensures dataword.Length == MAX_DATA_WORDS == 2956 && symbol != dataword && symbol != ecword && symbol != codeword
    {
    }

    lemma StartedIsReady()
      requires Shaped() && IsVersion(version) && -1 <= mask < MASKS && segs == [] && state == Begin && rejected == 0 && enclen == 0
      requires head == Zeros(HEADER_BITS) && Holds(head) && symbol != dataword && symbol != ecword && symbol != codeword
      ensures Ready()
    {
      TableConsistent(version, level);
      hide LevelOf, Widths, Holds;
      assert head + EncodeSegments(Widths(version), []) == head;
    }

    /** Writes the real header over the zeros, and puts the cursor back. */
    method PutHeader(index: nat, last: nat, parity: nat)
      requires Ready() && head == Zeros(HEADER_BITS)
      modifies this`dwpos, this`dwbit, this`head, dataword
      ensures Ready() && head == Header(index, last, parity)
      ensures dwpos == old(dwpos) && dwbit == old(dwbit)
    {
      hide *;
      ReadyMeans();
      var pos, bit := dwpos, dwbit;
      ghost var body := EncodeSegments(Widths(version), segs);
      HeaderStart(head, body);
      dwpos := 0;
      dwbit := 7;
      PutBits(4, 3, [], HEADER_BITS, body);
      PutBits(4, index, [] + ToBits(4, 3), 16, body);
      PutBits(4, last, [] + ToBits(4, 3) + ToBits(4, index), 12, body);
      PutBits(8, parity, [] + ToBits(4, 3) + ToBits(4, index) + ToBits(4, last), 8, body);
      dwpos := pos;
      dwbit := bit;
      head := Header(index, last, parity);
      HeaderDone(dataword[..], head, index, last, parity, body);
      ReadyAgain();
    }

    /** One field of the header, at the start of the zeros that are left. */
    method PutBits(n: nat, word: nat, ghost done: seq<bool>, ghost left: nat, ghost body: seq<bool>)
      requires 0 < n <= left && 0 <= dwpos && 0 <= dwbit < 8 && CursorOf(dwpos, dwbit) == |done|
      requires Written(dataword[..], done + Zeros(left) + body)
      modifies this`dwpos, this`dwbit, dataword
      ensures 0 <= dwpos && 0 <= dwbit < 8 && CursorOf(dwpos, dwbit) == |done + ToBits(n, word)|
      ensures Written(dataword[..], done + ToBits(n, word) + Zeros(left - n) + body)
    {
      hide *;
      ghost var before := dataword[..];
      FieldFits(before, done, n, left, body);
      AddDataBits(n, word);
      FieldWritten(before, dataword[..], done, n, word, left, body);
    }

    lemma ReadyMeans()
      requires Ready()
      ensures Shaped() && IsVersion(version) && -1 <= mask < MASKS && AllValid(segs) && state != Final && (state == Begin <==> segs == [])
      ensures rejected == 0 && enclen == TotalLength(Widths(version), segs) && |head| + enclen <= Capacity(version, level)
      ensures 0 <= dwpos && 0 <= dwbit < 8 && CursorOf(dwpos, dwbit) == |head + EncodeSegments(Widths(version), segs)|
      ensures Written(dataword[..], head + EncodeSegments(Widths(version), segs))
      ensures symbol != dataword && symbol != ecword && symbol != codeword
    {
      hide LevelOf, Widths, Written, EncodeSegments, TotalLength;
    }

    lemma ReadyAgain()
      requires Shaped() && IsVersion(version) && -1 <= mask < MASKS && AllValid(segs) && state != Final && (state == Begin <==> segs == [])
      requires rejected == 0 && enclen == TotalLength(Widths(version), segs) && |head| + enclen <= Capacity(version, level)
      requires 0 <= dwpos && 0 <= dwbit < 8 && CursorOf(dwpos, dwbit) == |head + EncodeSegments(Widths(version), segs)|
      requires Written(dataword[..], head + EncodeSegments(Widths(version), segs))
      requires symbol != dataword && symbol != ecword && symbol != codeword
      ensures Ready()
    {
      hide LevelOf, Widths, Written, EncodeSegments, TotalLength;
    }

    // ---- The bit stream ----

    method InitDataWord()
      modifies this`dwpos, this`dwbit, dataword
      ensures Holds([]) && dwpos == 0 && dwbit == 7
    {
      for i := 0 to dataword.Length
        invariant forall k :: 0 <= k < i ==> dataword[k] == 0
      {
        dataword[i] := 0;
      }
      dwpos := 0;
      dwbit := 7;
      ZeroBufferIsEmpty(dataword[..]);
    }

    /** ORs the low n bits of word in at the cursor, highest first. */
    method AddDataBits(n: int, word: nat)
      requires 0 <= dwpos && 0 <= dwbit < 8
      requires n > 0 ==> CursorOf(dwpos, dwbit) + n <= 8 * dataword.Length
      modifies this`dwpos, this`dwbit, dataword
      ensures 0 <= dwpos && 0 <= dwbit < 8
      ensures n <= 0 ==> dwpos == old(dwpos) && dwbit == old(dwbit) && dataword[..] == old(dataword[..])
      ensures n > 0 ==> CursorOf(dwpos, dwbit) == old(CursorOf(dwpos, dwbit)) + n
      ensures n > 0 ==> BitsOred(old(dataword[..]), dataword[..], old(CursorOf(dwpos, dwbit)), n, word)
    {
      hide *;
      ghost var before, c := dataword[..], CursorOf(dwpos, dwbit);
      var k := n;
      if n > 0 {
        CursorMeans(dwpos, dwbit);
        NothingOredYet(before, c, n, word);
      }
      while k > 0
        invariant n > 0 ==> 0 <= k <= n
        invariant n <= 0 ==> k == n && dwpos == old(dwpos) && dwbit == old(dwbit) && dataword[..] == before
        invariant 0 <= dwpos && 0 <= dwbit < 8
        invariant n > 0 ==> CursorOf(dwpos, dwbit) == c + (n - k)
        invariant n > 0 ==> OredSoFar(before, dataword[..], c, n, word, n - k)
      {
        k := k - 1;
        CursorMeans(dwpos, dwbit);
        OneMoreBit(before, dataword[..], c, n, word, n - 1 - k, dwpos, dwbit);
        AddBit(BitOf(word, k));
      }
      if n > 0 {
        AllOred(before, dataword[..], c, n, word);
      }
    }

    method AddBit(bit: bool)
      requires 0 <= dwpos < dataword.Length && 0 <= dwbit < 8
      modifies this`dwpos, this`dwbit, dataword
      ensures 0 <= dwpos && 0 <= dwbit < 8 && CursorOf(dwpos, dwbit) == old(CursorOf(dwpos, dwbit)) + 1
      ensures dataword[..] == OrInto(old(dataword[..]), old(dwpos), old(dwbit), bit)
    {
      hide BitMask;
      if bit {
        dataword[dwpos] := dataword[dwpos] | BitMask(dwbit);
      }
      dwbit := dwbit - 1;
      if dwbit < 0 {
        dwpos := dwpos + 1;
        dwbit := 7;
      }
    }

    /** Adding at the end of the stream appends. */
    method Append(n: int, word: nat, ghost bits: seq<bool>)
      requires Holds(bits) && (n > 0 ==> |bits| + n <= 8 * dataword.Length)
      modifies this`dwpos, this`dwbit, dataword
      ensures Holds(bits + ToBits(if n > 0 then n else 0, word))
    {
      ghost var before := dataword[..];
      AddDataBits(n, word);
      if n > 0 {
        OredAppends(before, dataword[..], bits, n, word);
      } else {
        assert bits + ToBits(0, word) == bits;
      }
    }

    /** Writes the characters group by group; stops at one that is not of the mode. */
    method EncodeData(m: Mode, data: seq<Octet>, ghost bits: seq<bool>) returns (ok: bool)
      requires Writable(m) && Holds(bits) && |bits| + DataLength(m, |data|) <= 8 * dataword.Length
      modifies this`dwpos, this`dwbit, dataword
      ensures ok == AllCharsOf(m, data)
      ensures if ok then Holds(bits + EncodeChars(m, data)) else Holds(bits + EncodeChars(m, WholeGroups(m, data)))
    {
      hide EncodeChars, WholeGroups, GroupValue, GroupWidth, ToBits, AlnumCode, GroupSize, GroupsDone, Holds, Radix, CodeOf, DataLength;
      ghost var done := [];
      var p: nat, n: nat, word: nat := 0, 0, 0;
      StartOfGroups(m, data);
      assert bits + [] == bits;
      while p < |data|
        invariant n <= p <= |data| && n < GroupSize(m) && GroupsDone(m, data, p, n, word)
        invariant AllCharsOf(m, data[..p - n]) && done == EncodeChars(m, data[..p - n])
        invariant Holds(bits + done)
      {
        if !IsCharOf(m, data[p]) {
          GroupsBefore(m, data, p, n, word);
          return false;
        }
        NextChar(m, data, p, n, word);
        ghost var before := word;
        word := word * Radix(m) + CodeOf(m, data[p]);
        n := n + 1;
        p := p + 1;
        if n >= GroupSize(m) {
          GroupMeans(m, data, p - 1, n - 1, before);
          PartFits(m, data, p);
          GroupCompletes(m, data, p, n, word);
          Regroup(bits, done, ToBits(GroupWidth(m, n), word));
          Append(GroupWidth(m, n), word, bits + done);
          done := EncodeChars(m, data[..p]);
          n := 0;
          word := 0;
          assert data[..p - 0] == data[..p];
        }
      }
      LastGroup(m, data, n, word);
      PartFits(m, data, |data|);
      assert data[..|data|] == data;
      Regroup(bits, done, ToBits(GroupWidth(m, n), word));
      if n > 0 {
        Append(GroupWidth(m, n), word, bits + done);
      } else {
        NoGroup(m, word, bits + done);
      }
      ok := true;
    }

    /**
     Writes mode, count and characters of one segment. When that fails the cursor is not put back where it was: its byte
     position and bit number come back exchanged.
     */
    method EncodeDataWord(m: Mode, data: seq<Octet>, ghost bits: seq<bool>) returns (r: Outcome)
      requires IsVersion(version) && Holds(bits) && m != Auto && data != []
      requires |bits| + EncodedLength(Widths(version), |data|, m) <= 8 * dataword.Length
      modifies this`dwpos, this`dwbit, dataword
      ensures r == if Segment(m, data).Valid() then Ok else Failed(CharError(m))
      ensures r.Ok? ==> Holds(bits + EncodeSegment(Widths(version), Segment(m, data)))
      ensures !r.Ok? ==> dwpos == old(dwbit) && dwbit == old(dwpos)
      ensures !r.Ok? ==> Written(dataword[..], bits + BrokenOff(Widths(version), m, data))
    {
      hide EncodeChars, ToBits, AlnumCode, Holds, DataLength, Widths, WholeGroups, BrokenOff, Written;
      var pos, bit := dwbit, dwpos;
      var n := Widths(version).Of(m);
      var count := if m == Kanji then |data| / 2 else |data|;
      ghost var id, size := ToBits(4, ModeId(m)), ToBits(n, count);
      Append(4, ModeId(m), bits);
      NoneToAppend(n, count);
      Append(n, count, bits + id);
      var ok := false;
      if m != Kanji {
        ok := EncodeData(m, data, bits + id + size);
      }
      if ok {
        SegmentWritten(bits, id, size, EncodeChars(m, data));
        return Ok;
      }
      BrokenOffIs(Widths(version), m, data, bits, id, size);
      HoldsMeans(if m == Kanji then bits + id + size else bits + id + size + EncodeChars(m, WholeGroups(m, data)));
      dwpos, dwbit := pos, bit;
      r := Failed(if m == Numeric then NotNumeric else if m == Alnum then NotAlnum else NotKanji);
    }

    lemma HoldsMeans(bits: seq<bool>)
      requires Holds(bits)
      ensures Written(dataword[..], bits)
    {
    }

    /** Bits that are still free; negative when the stream is longer than the symbol has room for. */
    function RemainedDataBits(): int
      requires level < 4 && IsVersion(version)
      reads this`version, this`dwpos, this`dwbit
    {
      (LevelOf(version, level).dataWords - dwpos) * 8 - (7 - dwbit)
    }

    /** Terminator, fill bits and pad words bring the stream to the length that the symbol has room for. */
    method FinalizeDataWord(ghost bits: seq<bool>)
      requires level < 4 && IsVersion(version) && Holds(bits)
      requires Capacity(version, level) <= 8 * dataword.Length
      modifies this`dwpos, this`dwbit, dataword
      ensures LevelOf(version, level).dataWords <= dataword.Length
      ensures BitStream(dataword[..LevelOf(version, level).dataWords]) == Completed(bits, Capacity(version, level))
      ensures IsPadded(dataword[..LevelOf(version, level).dataWords], |bits|)
    {
      hide *;
      var n := RemainedDataBits();
      CursorPlace(bits);
      ghost var room := n;
      if n < 4 {
        Append(n, 0, bits);
        n := 0;
      } else {
        Append(4, 0, bits);
        n := n - 4;
      }
      ghost var all := bits + ToBits(if room < 0 then 0 else if room < 4 then room else 4, 0);
      var m := n % 8;
      if m > 0 {
        Append(m, 0, all);
        n := n - m;
      } else {
        NothingAppended(all);
      }
      all := all + ToBits(m, 0);
      TailStart(bits, room, m, all);
      AddPadWords(n, all);
      TailEnd(bits, room, all, n / 8);
      StreamComplete(bits, room, all + Padding(n / 8, true));
      CapacityIs(version, level);
      CompletedIsPadded(dataword[..LevelOf(version, level).dataWords], bits);
    }

    /** Fills n bits with the two pad words in turn. */
    method AddPadWords(bitsToGo: nat, ghost bits: seq<bool>)
      requires Holds(bits) && bitsToGo % 8 == 0 && |bits| + bitsToGo <= 8 * dataword.Length
      modifies this`dwpos, this`dwbit, dataword
      ensures Holds(bits + Padding(bitsToGo / 8, true))
    {
      hide ToBits, Holds, Padding, PadWord;
      var n, first := bitsToGo, true;
      ghost var k: nat := 0;
      NoPadding(bits);
      while n >= 8
        invariant n >= 0 && n + 8 * k == bitsToGo && first == (k % 2 == 0)
        invariant Holds(bits + Padding(k, true))
      {
        PaddingAppend(k, true);
        Regroup(bits, Padding(k, true), ToBits(8, PadWord(first)));
        Append(8, PadWord(first), bits + Padding(k, true));
        first := !first;
        n := n - 8;
        k := k + 1;
      }
    }

    lemma CursorPlace(bits: seq<bool>)
      requires level < 4 && IsVersion(version) && Holds(bits)
      ensures RemainedDataBits() == Capacity(version, level) - |bits| && |bits| <= 8 * dataword.Length
    {
      hide LevelOf, BitStream;
    }

    lemma StreamComplete(bits: seq<bool>, room: int, all: seq<bool>)
      requires level < 4 && IsVersion(version) && Holds(all) && room == Capacity(version, level) - |bits|
      requires Capacity(version, level) <= 8 * dataword.Length
      requires all == if room >= 0 then bits + Tail(room) else bits
      ensures LevelOf(version, level).dataWords <= dataword.Length
      ensures BitStream(dataword[..LevelOf(version, level).dataWords]) == Completed(bits, Capacity(version, level))
    {
      hide BitStream, Tail, LevelOf;
      FrontOfStream(dataword[..], LevelOf(version, level).dataWords, all);
    }

    // ---- Placement ----

    /** The position and directions are those of place c of the walk. */
    ghost predicate Here(dim: nat, c: Cursor)
      reads this`xpos, this`ypos, this`xdir, this`ydir
    {
      xpos == X(dim, c) && ypos == Y(dim, c) && xdir == (if c.left then 1 else -1) && ydir == if c.pair % 2 == 0 then -1 else 1
    }

    method InitPosition()
      requires IsVersion(version)
      modifies this`xpos, this`ypos, this`xdir, this`ydir
      ensures Here(Dimension(version), Cursor(0, 0, false))
    {
      xpos := Dimension(version) - 1;
      ypos := Dimension(version) - 1;
      xdir := -1;
      ydir := -1;
    }

    method Step(ghost c: Cursor)
      requires IsVersion(version) && Here(Dimension(version), c) && OnWalk(Dimension(version), c)
      modifies this`xpos, this`ypos, this`xdir, this`ydir
      ensures Here(Dimension(version), Next(Dimension(version), c))
    {
      StepIsNext(Dimension(version), c);
      xpos := xpos + xdir;
      if xdir > 0 {
        ypos := ypos + ydir;
      }
      xdir := -xdir;
      if ypos < 0 || ypos >= Dimension(version) {
        ypos := ypos - ydir;
        ydir := -ydir;
        xpos := xpos - 2;
        if xpos == TIMING {
          xpos := xpos - 1;
        }
      }
    }

    /**
     Moves on to the next free module. After the last one the position is left of the first column in the last row; what
     is looked at there is the module before it in memory, which is free, so that the search ends.
     */
    method NextPosition(ghost g: Grid, ghost c: Cursor) returns (ghost e: Cursor)
      requires IsVersion(version) && HasFunctionPattern(g, version) && symbol.Length == Dimension(version) * Dimension(version)
      requires SameFunction(g, symbol[..], Dimension(version))
      requires Here(Dimension(version), c) && OnWalk(Dimension(version), c)
      modifies this`xpos, this`ypos, this`xdir, this`ydir
      ensures Here(Dimension(version), e) && IsNextFree(g, Dimension(version), c, e)
    {
      var dim := Dimension(version);
      hide *;
      DimensionFacts(version, g, c);
      e := c;
      var more := true;
      while more
        invariant more ==> OnWalk(dim, e)
        invariant Here(dim, e)
        invariant e.row < dim && Next(dim, c).row < dim && Next(dim, e).row < dim
        invariant more ==> FreeFrom(g, dim, Next(dim, c)) == FreeFrom(g, dim, Next(dim, e))
        invariant !more ==> IsNextFree(g, dim, c, e)
        decreases more, Pairs(dim) - e.pair, dim - e.row, !e.left
      {
        Step(e);
        ghost var next := Next(dim, e);
        NextFacts(g, symbol[..], version, c, e, next);
        more := IsFunc(symbol[ypos * dim + xpos]);
        e := next;
      }
    }

    /** Sets the data flag of the k-th free module when bit k of the code words, highest bit first, is set. */
    method FillCodeWord(ghost g: Grid)
      requires IsVersion(version) && HasFunctionPattern(g, version) && symbol.Length == Dimension(version) * Dimension(version)
      requires symbol[..] == g && codeword != symbol && TotalWords(version) <= codeword.Length
      modifies this`xpos, this`ypos, this`xdir, this`ydir, symbol
      ensures 8 * TotalWords(version) <= |FreeOrder(g, Dimension(version))|
      ensures Placed(g, Dimension(version), BitStream(codeword[..TotalWords(version)]), 8 * TotalWords(version), symbol[..])
    {
      hide *;
      var total := TotalWords(version);
      ghost var dim := Dimension(version);
      ghost var bits := BitStream(codeword[..total]);
      ghost var c := Cursor(0, 0, false);
      InitPosition();
      StartOfWalk(g, version, bits);
      for i := 0 to total
        invariant Walking(g, dim, bits, 8 * i, c, symbol[..]) && Here(dim, c)
      {
        CodewordBits(codeword[..total], i);
        c := PlaceWord(codeword[i], g, bits, i, c);
      }
      WalkDone(g, dim, bits, c, symbol[..]);
    }

    /** Places the bits of code word i, highest first. */
    method PlaceWord(word: bv8, ghost g: Grid, ghost bits: seq<bool>, ghost i: nat, ghost c: Cursor) returns (ghost e: Cursor)
      requires IsVersion(version) && HasFunctionPattern(g, version) && symbol.Length == Dimension(version) * Dimension(version)
      requires Walking(g, Dimension(version), bits, 8 * i, c, symbol[..]) && Here(Dimension(version), c)
      requires 8 * i + 8 <= |bits| && forall j :: 0 <= j < 8 ==> bits[8 * i + 7 - j] == HasBit(word, j)
      modifies this`xpos, this`ypos, this`xdir, this`ydir, symbol
      ensures Walking(g, Dimension(version), bits, 8 * (i + 1), e, symbol[..]) && Here(Dimension(version), e)
    {
      hide *;
      e := c;
      for j := 8 downto 0
        invariant Walking(g, Dimension(version), bits, 8 * i + (8 - j), e, symbol[..]) && Here(Dimension(version), e)
      {
        e := PlaceBit(HasBit(word, j), g, bits, 8 * i + (7 - j), e);
      }
    }

    /** Places one bit, and moves on. */
    method PlaceBit(bit: bool, ghost g: Grid, ghost bits: seq<bool>, ghost k: nat, ghost c: Cursor) returns (ghost e: Cursor)
      requires IsVersion(version) && HasFunctionPattern(g, version) && symbol.Length == Dimension(version) * Dimension(version)
      requires Walking(g, Dimension(version), bits, k, c, symbol[..]) && Here(Dimension(version), c)
      requires k < |bits| && bit == bits[k]
      modifies this`xpos, this`ypos, this`xdir, this`ydir, symbol
      ensures Walking(g, Dimension(version), bits, k + 1, e, symbol[..]) && Here(Dimension(version), e)
    {
      var dim := Dimension(version);
      hide *;
      WalkPlace(g, dim, bits, k, c, symbol[..]);
      HereMeans(dim, c);
      ghost var before := symbol[..];
      if bit {
        symbol[ypos * dim + xpos] := SetData(symbol[ypos * dim + xpos]);
      }
      WalkPlaced(g, dim, bits, k, c, before, symbol[..]);
      e := NextPosition(g, c);
      WalkMoved(g, dim, bits, k, c, symbol[..], e);
    }

    lemma HereMeans(dim: nat, c: Cursor)
      requires Here(dim, c)
      ensures xpos == X(dim, c) && ypos == Y(dim, c)
    {
    }

    // ---- Masking ----

    /** Applies the mask that was asked for, or else tries all of them and keeps the best, the first one on a tie. */
    method SelectMaskPattern()
      requires IsVersion(version) && symbol.Length == Dimension(version) * Dimension(version) && -1 <= mask < MASKS
      modifies this`mask, symbol
      ensures 0 <= mask < MASKS
      ensures symbol[..] == MaskedGrid(old(symbol[..]), Dimension(version), mask)
      ensures if old(mask) >= 0 then mask == old(mask) else IsBestMask(old(symbol[..]), Dimension(version), mask, MASKS)
    {
      hide *;
      var dim := Dimension(version);
      DimensionPositive(version);
      ghost var g := symbol[..];
      if mask >= 0 {
        ApplyMask(symbol, dim, mask);
        return;
      }
      var best := -1;
      NotMaskedYet(g, dim);
      for k := 0 to MASKS
        invariant IsGrid(symbol[..], dim) && SameUnderMasks(g, symbol[..], dim)
        invariant best == -1 <==> k == 0
        invariant k > 0 ==> 0 <= mask < k && best == Penalty.TotalPenalty(MaskedGrid(g, dim, mask), dim)
        invariant k > 0 ==> IsBestMask(g, dim, mask, k)
      {
        TrialOf(g, symbol[..], dim, k);
        ApplyMask(symbol, dim, k);
        var penalty := Penalty.Evaluate(symbol, dim);
        Penalty.TotalPenaltyNonNegative(symbol[..], dim);
        NextTrial(g, dim, if k > 0 then mask else 0, k, penalty, best);
        if best == -1 || penalty < best {
          mask := k;
          best := penalty;
        }
      }
      TrialOf(g, symbol[..], dim, mask);
      ApplyMask(symbol, dim, mask);
    }

    // ---- Finalizing ----

    /** The first version that seems large enough; one more than there are when none does. */
    method ChooseVersion() returns (v: int)
      requires level < 4
      ensures 1 <= v <= MAX_VERSION + 1
      ensures v <= MAX_VERSION ==> Capacity(v, level) >= enclen - DeltaFor(v, delta1, delta2)
      ensures forall u :: 1 <= u < v ==> Capacity(u, level) < enclen - DeltaFor(u, delta1, delta2)
    {
      hide Capacity;
      v := 1;
      while v <= MAX_VERSION
        invariant 1 <= v <= MAX_VERSION + 1
        invariant forall u :: 1 <= u < v ==> Capacity(u, level) < enclen - DeltaFor(u, delta1, delta2)
      {
        var delta := if v <= VERPOINT1 then delta1 else if v <= VERPOINT2 then delta2 else 0;
        if Capacity(v, level) >= enclen - delta {
          break;
        }
        v := v + 1;
      }
    }

    /** Encodes the buffered records, up to the zero byte after the last; stops at one that cannot be encoded. */
    method EncodeSource() returns (ok: bool)
      requires IsVersion(version) && AllStorable(segs) && source == RecordsOf(segs)
      requires TotalLength(Widths(version), segs) <= 8 * dataword.Length <= 8 * MAX_DATA_WORDS
      modifies this`dwpos, this`dwbit, dataword
      ensures ok == AllValid(segs)
      ensures ok ==> Holds(EncodeSegments(Widths(version), segs))
    {
      hide *;
      InitDataWord();
      ghost var w := Widths(version);
      ghost var k := 0;
      var p := 0;
      assert source[0..] == source;
      NothingParsed(w, segs, source);
      while p < |source|
        invariant p <= |source| && Parsed(segs, k, source[p..])
        invariant Holds(EncodedSoFar(w, segs, k))
      {
        ghost var rest := source[p..];
        ParseNext(w, segs, k, rest, 8 * dataword.Length);
        assert rest[0] == source[p] && rest[1] == source[p + 1] && rest[2] == source[p + 2] && rest[3] == source[p + 3]
               && rest[4] == source[p + 4];
        var m := ModeOfNumber(source[p] - 0x80).value;
        var size := SizeOf(source[p + 1], source[p + 2], source[p + 3], source[p + 4]);
        var data := source[p + 5..p + 5 + size];
        assert data == rest[5..5 + size] && source[p + 5 + size..] == rest[5 + size..];
        var r := EncodeDataWord(m, data, EncodedSoFar(w, segs, k));
        if r != Ok {
          return false;
        }
        p := p + 5 + size;
        k := k + 1;
      }
      AllParsed(w, segs, k, source[p..]);
      ok := true;
    }

    lemma ValidMeans()
      requires Valid()
      ensures level < 4 && (version == -1 || IsVersion(version)) && -1 <= mask < MASKS && Shaped() && AllStorable(segs)
      ensures state == Final ==> AllValid(segs) && IsVersion(version)
      ensures state != Final && version != -1 ==> AllValid(segs)
      ensures state != Begin ==> segs != []
    {
      hide LevelOf, Shows, Colours, Completed, Holds;
    }

    lemma NothingCounted()
      requires Valid() && state == Begin
      ensures head == [] && segs == [] && enclen == 0
    {
      hide LevelOf, Shows, Colours, Completed, Holds, Widths;
    }

    lemma OpenMeans()
      requires Valid() && state != Final && version == -1
      ensures head == [] && source == RecordsOf(segs) && OpenCount(level, segs, rejected, source, enclen, delta1, delta2)
      ensures 8 * dataword.Length == 8 * MAX_DATA_WORDS
    {
      hide LevelOf, Shows, Colours, Completed, Holds;
    }

    lemma WrittenMeans()
      requires Valid() && state == Set && version != -1
      ensures IsVersion(version) && AllValid(segs) && Holds(Stream()) && 8 * dataword.Length == 8 * MAX_DATA_WORDS
    {
      hide LevelOf, Shows, Colours, Completed, Holds;
    }

    lemma StreamMeans()
      requires IsVersion(version) && AllValid(segs)
      ensures Stream() == head + EncodeSegments(Widths(version), segs)
    {
    }

    lemma FinalIsValid(content: seq<bool>)
      requires Shaped() && symbol != dataword && symbol != ecword && symbol != codeword
      requires IsVersion(version) && 0 <= mask < MASKS && AllValid(segs) && state == Final && segs != []
      requires content == Completed(Stream(), Capacity(version, level)) && Shows(Colours(symbol[..]), version, level, mask, content)
      ensures Valid()
    {
      hide LevelOf, Shows, Colours, Completed, Holds;
    }

    /** Error correction, interleaving, drawing, masking and labelling: the symbol shows the data words. */
    method Draw(ghost content: seq<bool>) returns (ghost plain: Grid)
      requires Shaped() && IsVersion(version) && -1 <= mask < MASKS
      requires LevelOf(version, level).dataWords <= dataword.Length
      requires BitStream(dataword[..LevelOf(version, level).dataWords]) == content
      modifies this`symbol, this`mask, this`xpos, this`ypos, this`xdir, this`ydir, ecword, codeword
      ensures fresh(symbol) && 0 <= mask < MASKS && (old(mask) >= 0 ==> mask == old(mask))
      ensures Shows(Colours(symbol[..]), version, level, mask, content)
      ensures IsMasked(plain, version, old(mask), mask, level, symbol[..])
    {
      hide *;
      ShapeMeans();
      DrawFacts(version, level);
      DimensionPositive(version);
      var l := LevelOf(version, level);
      var total := TotalWords(version);
      ComputeErrorCorrection(dataword, ecword, l, total);
      MakeCodewords(dataword, ecword, codeword, l, total);
      var fresh' := FillFunctionPattern(version);
      symbol := fresh';
      ghost var g := symbol[..];
      PatternIsFunctionPattern(g, version);
      FillCodeWord(g);
      plain := symbol[..];
      SelectMaskPattern();
      ghost var fmt := FillFormatInfo(symbol, version, level, mask);
      SymbolDrawn(g, version, level, dataword[..], ecword[..], codeword[..], plain, mask, symbol[..], fmt, content);
      MaskedMeans(plain, version, old(mask), mask, level, symbol[..], fmt);
    }

    lemma ShapeMeans()
      requires Shaped()
      ensures level < 4 && dataword.Length == MAX_DATA_WORDS && ecword.Length == MAX_EC_WORDS && codeword.Length == MAX_CODE_WORDS
      ensures dataword != ecword && dataword != codeword && ecword != codeword
    {
    }

    /**
     Completes the symbol. While the version is open it is chosen first, and the buffered records are encoded; otherwise
     the stream is already there.
     */
    method Finalize() returns (ok: bool, ghost plain: Grid)
      requires Valid() && state != Begin
      modifies this, dataword, ecword, codeword
      ensures segs == old(segs) && head == old(head) && rejected == old(rejected)
      ensures ok == AllValid(segs)
      ensures ok ==> state == Final && Valid() && (old(mask) >= 0 ==> mask == old(mask))
      ensures ok && old(version) != -1 ==> version == old(version)
      ensures ok && old(state) != Final ==> fresh(symbol)
      ensures ok && old(state) != Final && old(version) == -1 ==> IsChoice(version, segs, level, rejected)
      ensures ok && old(state) != Final ==>
                && IsVersion(version) && AllStorable(segs)
                && (Fits(version, segs, level) <==> old(version) != -1 || DriftHarmless(segs, level, rejected))
      ensures ok && old(state) != Final ==> IsVersion(version) && mask >= 0 && IsMasked(plain, version, old(mask), mask, level, symbol[..])
      ensures old(state) == Final ==> version == old(version) && symbol == old(symbol) && symbol[..] == old(symbol[..])
    {
      hide *;
      plain := [];
      ValidMeans();
      if state == Final {
        return true, [];
      }
      if version == -1 {
        OpenMeans();
        var v := ChooseVersion();
        ChoiceFound(level, segs, rejected, source, enclen, delta1, delta2, v);
        ChoiceRightIff(v, segs, level, rejected);
        version := v;
        ok := EncodeSource();
        source := [];
        if !ok {
          return;
        }
        NoHead(head, Widths(version), segs);
      } else {
        WrittenMeans();
        GivenMeans();
        FitsIs(version, segs, level);
      }
      StreamMeans();
      ghost var bits := Stream();
      RoomInBuffer(version, level);
      FinalizeDataWord(bits);
      ghost var content := Completed(bits, Capacity(version, level));
      plain := Draw(content);
      state := Final;
      ok := true;
      FinalIsValid(content);
    }

    /** A finished symbol reads back as the segments that were added, exactly when it has room for them. */
    lemma ReadsBack()
      requires Valid() && state == Final && head == []
      ensures IsPrinted(Colours(symbol[..]), version)
      ensures ReadSymbol(Colours(symbol[..]), version) == Some(segs) <==> Fits(version, segs, level)
    {
      hide *;
      FinalMeans();
      SymbolReads(Colours(symbol[..]), version, level, mask, segs);
    }

    lemma FinalMeans()
      requires Valid() && state == Final
      ensures IsVersion(version) && level < 4 && 0 <= mask < MASKS == 8 && AllValid(segs)
      ensures Shows(Colours(symbol[..]), version, level, mask, Completed(Stream(), Capacity(version, level)))
      ensures head == [] ==> Stream() == EncodeSegments(Widths(version), segs)
    {
      hide Shows, Colours, Completed, Capacity, EncodeSegments;
    }
  }

  // ---- One symbol for one piece of data ----

  const LEVEL_H := 3

  /** There is a mode for the data, they belong to it, and the largest version has room for them. */
  ghost predicate Showable(data: seq<Octet>, number: int) {
    && RequestedMode(number, data).Some?
    && Segment(RequestedMode(number, data).value, data).Valid()
    && EncodedLength(Widths(MAX_VERSION), |data|, RequestedMode(number, data).value) <= Capacity(MAX_VERSION, LEVEL_H)
  }

  /** A reader gets exactly these segments, and no smaller symbol would have done. */
  ghost predicate Says(p: Printed, v: int, level: nat, segs: seq<Segment>)
    requires level < 4
  {
    && IsVersion(v) && IsPrinted(p, v) && ReadSymbol(p, v) == Some(segs)
    && AllStorable(segs) && IsLeastFitting(v, segs, level)
  }

  /** What the wallet does to show data: version and mask are left open, the level is H. */
  method ShowData(data: seq<Octet>, number: int) returns (qr: QrCode?)
    ensures qr != null <==> Showable(data, number)
    ensures qr != null ==> Says(Colours(qr.symbol[..]), qr.version, LEVEL_H, [Segment(RequestedMode(number, data).value, data)])
  {
    hide LevelOf, Widths, TotalLength, EncodedLength, Capacity, AlnumCode, QrCode.Valid, ReadSymbol, IsPrinted, Fits, IsChoice,
         IsLeastFitting, IsMasked, Colours, AllValid;
    var r: Outcome;
    qr, r := QrCode.Init(-1, number, LEVEL_H, -1);
    if qr == null {
      return;
    }
    qr.NothingCounted();
    r := qr.AddDataAs(data, number);
    if r != Ok {
      return null;
    }
    ghost var s := Segment(RequestedMode(number, data).value, data);
    OneSegment(qr.segs, s);
    var ok, _ := qr.Finalize();
    if !ok {
      return null;
    }
    qr.ReadsBack();
    ChoiceIsLeast(qr.version, qr.segs, LEVEL_H);
    LeastFits(qr.version, qr.segs, LEVEL_H);
  }

  /** What is asked of one add: data, and the number of a mode. */
  datatype Item = Item(data: seq<Octet>, number: int)

  /** The segment that an item makes; of no mode when it names one that there is not. */
  function SegmentOf(item: Item): Segment {
    var m := RequestedMode(item.number, item.data);
    Segment(if m.Some? then m.value else Auto, item.data)
  }

  function SegmentsOf(items: seq<Item>): (segs: seq<Segment>)
    ensures |segs| == |items|
  {
    seq(|items|, i requires 0 <= i < |items| => SegmentOf(items[i]))
  }

  /** All can be taken, Kanji data unseen while the version is open, and together they fit it, or else the largest one. */
  ghost predicate AllTaken(version: int, level: nat, segs: seq<Segment>)
    requires (version == -1 || IsVersion(version)) && level < 4
  {
    && AllStorable(segs) && TotalLength(Widths(Nominal(version)), segs) <= Capacity(Nominal(version), level)
    && (version != -1 ==> AllValid(segs))
  }

  /** A reader gets exactly these segments; a version that was left open is the least one that has room. */
  ghost predicate Shown(p: Printed, v: int, version: int, level: nat, segs: seq<Segment>)
    requires level < 4
  {
    && IsVersion(v) && IsPrinted(p, v) && ReadSymbol(p, v) == Some(segs)
    && if version == -1 then AllStorable(segs) && IsLeastFitting(v, segs, level) else v == version
  }

  /** Any run of adds to a new symbol goes through exactly when all items can be shown, and then a reader gets them all. */
  method ShowRun(version: int, level: nat, mask: int, items: seq<Item>) returns (qr: QrCode?)
    requires (version == -1 || IsVersion(version)) && level < 4 && -1 <= mask < 8 && items != []
    ensures qr != null <==> AllTaken(version, level, SegmentsOf(items)) && AllValid(SegmentsOf(items))
    ensures qr != null ==> Shown(Colours(qr.symbol[..]), qr.version, version, level, SegmentsOf(items))
  {
    hide *;
    MasksAre();
    var made := new QrCode(version, -1, level, mask);
    made.NothingCounted();
    NothingTaken(version, level, items[..0]);
    for k := 0 to |items|
      invariant fresh(made) && fresh(made.dataword) && fresh(made.ecword) && fresh(made.codeword)
      invariant made.Valid() && made.version == version && made.level == level && made.head == [] && made.rejected == 0
      invariant AllTaken(version, level, made.segs) && made.segs == SegmentsOf(items[..k])
      invariant if k == 0 then made.state == Begin else made.state == Set
    {
      made.CountedLength();
      ItemDecides(version, level, made.segs, items[k], made.state, made.enclen);
      OneMoreItem(items, k);
      ghost var segs, state := made.segs, made.state;
      var r := made.AddDataAs(items[k].data, items[k].number);
      ItemAdded(made, r, items[k], segs, 0, state, version);
      if r != Ok {
        FrontDecides(version, level, SegmentsOf(items), SegmentsOf(items[..k + 1]));
        return null;
      }
    }
    assert items[..|items|] == items;
    var ok, _ := made.Finalize();
    if !ok {
      return null;
    }
    made.ReadsBack();
    HarmlessWithoutDrift(made.segs, level, made.version);
    ShownIs(Colours(made.symbol[..]), made.version, version, level, made.segs);
    qr := made;
  }

  lemma MasksAre()
    ensures MASKS == 8
  {
  }

  lemma NothingTaken(version: int, level: nat, items: seq<Item>)
    requires (version == -1 || IsVersion(version)) && level < 4 && items == []
    ensures SegmentsOf(items) == [] && AllTaken(version, level, [])
  {
    hide Capacity;
  }

  /** An item is taken exactly when all is still well with it. */
  lemma ItemDecides(version: int, level: nat, segs: seq<Segment>, item: Item, state: State, enclen: int)
    requires (version == -1 || IsVersion(version)) && level < 4 && AllTaken(version, level, segs) && state != Final
    requires AllStorable(segs) && enclen == TotalLength(Widths(Nominal(version)), segs)
    ensures Verdict(state, version, level, enclen, item.data, item.number) == Ok <==> AllTaken(version, level, segs + [SegmentOf(item)])
  {
    hide *;
    var s, w := SegmentOf(item), Widths(Nominal(version));
    VerdictMeans(state, version, level, enclen, item);
    AllTakenMeans(version, level, segs);
    AllTakenMeans(version, level, segs + [s]);
    LastStorable(segs, s);
    if s.Storable() {
      DeltaStep(w, w, segs, s);
    }
  }

  lemma VerdictMeans(state: State, version: int, level: nat, enclen: int, item: Item)
    requires (version == -1 || IsVersion(version)) && level < 4 && state != Final
    ensures var s := SegmentOf(item);
            && (s.Valid() ==> s.Storable()) && (s.Storable() ==> s.mode != Auto)
            && (Verdict(state, version, level, enclen, item.data, item.number) == Ok <==>
                  && s.Storable() && (version != -1 ==> s.Valid())
                  && enclen + EncodedLength(Widths(Nominal(version)), |s.data|, s.mode) <= Capacity(Nominal(version), level))
  {
    AllBytes(item.data);
    hide Capacity, Widths, EncodedLength, AlnumCode, DetectedMode, AllCharsOf;
  }

  lemma AllTakenMeans(version: int, level: nat, segs: seq<Segment>)
    requires (version == -1 || IsVersion(version)) && level < 4
    ensures AllTaken(version, level, segs) <==>
              && AllStorable(segs) && TotalLength(Widths(Nominal(version)), segs) <= Capacity(Nominal(version), level)
              && (version != -1 ==> AllValid(segs))
  {
    hide AllStorable, AllValid, TotalLength, Capacity, Widths;
  }

  lemma LastStorable(segs: seq<Segment>, s: Segment)
    ensures AllStorable(segs + [s]) <==> AllStorable(segs) && s.Storable()
    ensures AllValid(segs + [s]) <==> AllValid(segs) && s.Valid()
  {
    hide Segment.Storable, Segment.Valid;
    assert forall i :: 0 <= i < |segs| ==> (segs + [s])[i] == segs[i];
    assert (segs + [s])[|segs|] == s;
  }

  lemma OneMoreItem(items: seq<Item>, k: nat)
    requires k < |items|
    ensures SegmentsOf(items[..k + 1]) == SegmentsOf(items[..k]) + [SegmentOf(items[k])]
    ensures SegmentsOf(items[..k + 1]) <= SegmentsOf(items)
  {
    hide SegmentOf;
  }

  lemma FrontDecides(version: int, level: nat, segs: seq<Segment>, front: seq<Segment>)
    requires (version == -1 || IsVersion(version)) && level < 4 && front <= segs && !AllTaken(version, level, front)
    ensures !AllTaken(version, level, segs)
  {
    hide Capacity, Widths, TotalLength, Segment.Storable, Segment.Valid;
    if AllTaken(version, level, segs) {
      assert segs[..|front|] == front;
      assert forall i :: 0 <= i < |front| ==> front[i] == segs[i];
      TotalOfPrefix(Widths(Nominal(version)), segs, |front|);
    }
  }

  lemma ItemAdded(qr: QrCode, r: Outcome, item: Item, segs0: seq<Segment>, rejected0: nat, state0: State, version0: int)
    requires qr.Added(r, item.data, item.number, segs0, rejected0, state0, version0)
    ensures qr.version == version0 && qr.head == []
    ensures r.Ok? ==> qr.Valid() && qr.rejected == rejected0 && qr.state == Set && qr.segs == segs0 + [SegmentOf(item)]
  {
    hide QrCode.Valid;
  }

  lemma HarmlessWithoutDrift(segs: seq<Segment>, level: nat, v: int)
    requires level < 4 && AllStorable(segs) && IsVersion(v)
    ensures DriftHarmless(segs, level, 0)
    ensures IsChoice(v, segs, level, 0) ==> IsLeastFitting(v, segs, level)
  {
    ChoiceIsLeast(v, segs, level);
    hide Capacity, TotalLength, Widths;
    forall u | IsVersion(u) && TooSmallUpTo(u, segs, level)
      ensures TotalLength(Widths(u), segs) > Capacity(u, level) + Drift(u, 0)
    {
      assert !Fits(u, segs, level);
    }
  }

  lemma ShownIs(p: Printed, v: int, version: int, level: nat, segs: seq<Segment>)
    requires level < 4 && IsVersion(v) && IsPrinted(p, v) && ReadSymbol(p, v) == Some(segs) && AllStorable(segs)
    requires if version == -1 then IsLeastFitting(v, segs, level) else v == version
    ensures Shown(p, v, version, level, segs)
  {
    hide ReadSymbol, IsPrinted, IsLeastFitting;
  }

  /**
   A run that goes wrong: after a letter was refused as a number, eight bytes are put into a symbol of version 1, which has
   no room for them, and are not what a reader gets.
   */
  method DriftedRun(bytes: seq<Octet>) returns (qr: QrCode)
    requires |bytes| == 8
    ensures qr.version == 1 && qr.segs == [Segment(EightBit, bytes)] && IsPrinted(Colours(qr.symbol[..]), qr.version)
    ensures ReadSymbol(Colours(qr.symbol[..]), qr.version) != Some(qr.segs)
  {
    hide *;
    var letter: seq<Octet> := [65];
    LetterRefused(letter);
    qr := new QrCode(-1, -1, LEVEL_H, -1);
    qr.NothingCounted();
    var r := qr.AddDataAs(letter, 0);
    AddedMeans(qr, r, letter, 0, [], 0, Begin, -1);
    qr.NothingCounted();
    BytesTaken(bytes);
    r := qr.AddDataAs(bytes, 2);
    AddedMeans(qr, r, bytes, 2, [], 1, Begin, -1);
    OneSegment(qr.segs, Segment(EightBit, bytes));
    DriftMisleads(bytes);
    var ok, _ := qr.Finalize();
    ChoiceUnique(1, qr.version, qr.segs, LEVEL_H, 1);
    qr.ReadsBack();
  }

  lemma LetterRefused(letter: seq<Octet>)
    requires letter == [65]
    ensures Verdict(Begin, -1, LEVEL_H, 0, letter, 0) == Failed(NotNumeric) && LEVEL_H == 3 && MASKS == 8
  {
    assert Capacity(MAX_VERSION, LEVEL_H) >= 100;
    hide LevelOf;
    assert !IsCharOf(Numeric, letter[0]);
  }

  lemma BytesTaken(bytes: seq<Octet>)
    requires |bytes| == 8
    ensures Verdict(Begin, -1, LEVEL_H, 0, bytes, 2) == Ok && RequestedMode(2, bytes) == Some(EightBit)
    ensures Segment(EightBit, bytes).Valid()
  {
    assert Capacity(MAX_VERSION, LEVEL_H) >= 100;
    hide LevelOf;
    AllBytes(bytes);
  }

  lemma AddedMeans(qr: QrCode, r: Outcome, data: seq<Octet>, number: int, segs0: seq<Segment>, rejected0: nat, state0: State, version0: int)
    requires qr.Added(r, data, number, segs0, rejected0, state0, version0) && version0 == -1
    ensures qr.Valid() && qr.version == version0 && qr.head == []
    ensures r.Ok? ==>
              && RequestedMode(number, data).Some? && qr.rejected == rejected0 && qr.state == Set
              && qr.segs == segs0 + [Segment(RequestedMode(number, data).value, data)]
    ensures r.Failed? ==> qr.segs == segs0 && qr.state == state0 && qr.rejected == rejected0 + (if IsCharError(r) then 1 else 0)
    ensures IsCharError(Failed(NotNumeric)) && !IsCharError(Ok)
  {
    hide RequestedMode, QrCode.Valid;
  }

  lemma OneSegment(segs: seq<Segment>, s: Segment)
    requires segs == [] + [s]
    ensures segs == [s] && (AllValid(segs) <==> s.Valid())
  {
    assert segs[0] == s;
  }

  lemma LeastFits(v: int, segs: seq<Segment>, level: nat)
    requires level < 4 && AllStorable(segs) && IsLeastFitting(v, segs, level)
    ensures IsVersion(v) && Fits(v, segs, level)
  {
  }

  // ---- Drawing ----

  /** plain is the symbol before masking; the mask is the one asked for or the best one, and then it was labelled. */
  ghost predicate IsMasked(plain: Grid, v: int, asked: int, mask: int, level: nat, g: Grid)
    requires IsVersion(v) && level < 4
  {
    && IsGrid(plain, Dimension(v)) && 0 <= mask < MASKS
    && (if asked >= 0 then mask == asked else IsBestMask(plain, Dimension(v), mask, MASKS))
    && exists fmt: Word :: InfoPrinted(MaskedGrid(plain, Dimension(v), mask), g, v, fmt) && IsFormatWord(fmt, level, mask)
  }

  lemma MaskedMeans(plain: Grid, v: int, asked: int, mask: int, level: nat, g: Grid, fmt: Word)
    requires IsVersion(v) && level < 4 && IsGrid(plain, Dimension(v)) && 0 <= mask < MASKS
    requires if asked >= 0 then mask == asked else IsBestMask(plain, Dimension(v), mask, MASKS)
    requires InfoPrinted(MaskedGrid(plain, Dimension(v), mask), g, v, fmt) && IsFormatWord(fmt, level, mask)
    ensures IsMasked(plain, v, asked, mask, level, g)
  {
    hide InfoPrinted, MaskedGrid, IsFormatWord, IsBestMask;
  }

  lemma DrawFacts(v: int, level: nat)
    requires IsVersion(v) && level < 4
    ensures Consistent(LevelOf(v, level), TotalWords(v))
    ensures LevelOf(v, level).dataWords <= MAX_DATA_WORDS && TotalWords(v) - LevelOf(v, level).dataWords <= MAX_EC_WORDS
    ensures TotalWords(v) <= MAX_CODE_WORDS && MASKS == 8 && IsDimension(Dimension(v))
  {
    TableConsistent(v, level);
    hide LevelOf, TotalWords;
  }

  lemma SymbolDrawn(g: Grid, v: int, level: nat, data: seq<bv8>, ec: seq<bv8>, code: seq<bv8>, h: Grid, mask: nat, s: Grid, fmt: Word,
              content: seq<bool>)
    requires IsVersion(v) && level < 4 && mask < MASKS && TotalWords(v) <= |code|
    requires LevelOf(v, level).dataWords <= |data| && TotalWords(v) - LevelOf(v, level).dataWords <= |ec|
    requires Fitting(LevelOf(v, level), TotalWords(v)) && Interleaved(code, data, ec, LevelOf(v, level), TotalWords(v))
    requires RS.IsGenerator(Syndromes.GeneratorRow(EcWords(LevelOf(v, level))))
    requires Coded(data, ec, DataLengths(LevelOf(v, level)), EcLengths(LevelOf(v, level)),
                   Syndromes.GeneratorRow(EcWords(LevelOf(v, level))), LevelOf(v, level).n1 + LevelOf(v, level).n2)
    requires HasPattern(g, v) && IsGrid(h, Dimension(v)) && 8 * TotalWords(v) <= |FreeOrder(g, Dimension(v))|
    requires Placed(g, Dimension(v), BitStream(code[..TotalWords(v)]), 8 * TotalWords(v), h)
    requires InfoPrinted(MaskedGrid(h, Dimension(v), mask), s, v, fmt) && ReadFormat(fmt) == Format(level, mask)
    requires BitStream(data[..LevelOf(v, level).dataWords]) == content
    ensures Shows(Colours(s), v, level, mask, content)
  {
    hide *;
    var words := code[..TotalWords(v)];
    FrontInterleaved(code, data, ec, LevelOf(v, level), TotalWords(v));
    CodedFacts(data, ec, v, level);
    SymbolShows(g, v, level, data, ec, words, h, mask, s, fmt, content);
  }

  lemma FrontInterleaved(code: seq<bv8>, data: seq<bv8>, ec: seq<bv8>, l: Level, total: nat)
    requires Fitting(l, total) && l.dataWords <= |data| && total - l.dataWords <= |ec| && Interleaved(code, data, ec, l, total)
    ensures total <= |code| && Interleaved(code[..total], data, ec, l, total)
  {
    hide Fitting;
    assert code[..total][..total] == code[..total];
  }

  lemma CodedFacts(data: seq<bv8>, ec: seq<bv8>, v: int, level: nat)
    requires IsVersion(v) && level < 4
    requires LevelOf(v, level).dataWords <= |data| && TotalWords(v) - LevelOf(v, level).dataWords <= |ec|
    requires Fitting(LevelOf(v, level), TotalWords(v))
    requires RS.IsGenerator(Syndromes.GeneratorRow(EcWords(LevelOf(v, level))))
    requires Coded(data, ec, DataLengths(LevelOf(v, level)), EcLengths(LevelOf(v, level)),
                   Syndromes.GeneratorRow(EcWords(LevelOf(v, level))), LevelOf(v, level).n1 + LevelOf(v, level).n2)
    ensures ReedSolomonFacts(data, ec, v, level)
  {
    hide LevelOf, TotalWords, Fitting, Coded;
  }

  // ---- The choice of the version ----

  /** The search ends with a version, namely the one that the corrected lengths say, and the buffer has room for the stream. */
  lemma ChoiceFound(level: nat, segs: seq<Segment>, rejected: nat, source: seq<Octet>, enclen: int, delta1: int, delta2: int, v: int)
    requires level < 4 && AllStorable(segs) && OpenCount(level, segs, rejected, source, enclen, delta1, delta2)
    requires 1 <= v <= MAX_VERSION + 1
    requires v <= MAX_VERSION ==> Capacity(v, level) >= enclen - DeltaFor(v, delta1, delta2)
    requires forall u :: 1 <= u < v ==> Capacity(u, level) < enclen - DeltaFor(u, delta1, delta2)
    ensures IsVersion(v) && IsChoice(v, segs, level, rejected)
    ensures TotalLength(Widths(v), segs) <= 8 * MAX_DATA_WORDS
  {
    LargestFits(segs, level, rejected);
    RoomInBuffer(MAX_VERSION, level);
    hide Capacity, TotalLength, SeemsToFit, RecordsOf, DeltaFor, Widths;
    TestMeans(MAX_VERSION, segs, level, rejected, enclen, delta1, delta2);
    assert v <= MAX_VERSION;
    TotalNarrower(v, segs, 0);
    forall u | 1 <= u <= v ensures IsVersion(u) && (SeemsToFit(u, segs, level, rejected) <==> u == v) {
      TestMeans(u, segs, level, rejected, enclen, delta1, delta2);
    }
  }

  lemma NoHead(head: seq<bool>, w: CountWidths, segs: seq<Segment>)
    requires AllValid(segs)
    ensures head == [] ==> head + EncodeSegments(w, segs) == EncodeSegments(w, segs)
  {
  }

  // ---- Parsing the records ----

  /** The first k records have been read, and could be encoded; rest is what follows. */
  ghost predicate Parsed(segs: seq<Segment>, k: int, rest: seq<Octet>) {
    0 <= k <= |segs| && AllStorable(segs) && AllValid(segs[..k]) && rest == RecordsOf(segs[k..])
  }

  ghost function EncodedSoFar(w: CountWidths, segs: seq<Segment>, k: int): seq<bool> {
    if 0 <= k <= |segs| && AllValid(segs[..k]) then EncodeSegments(w, segs[..k]) else []
  }

  lemma NothingParsed(w: CountWidths, segs: seq<Segment>, source: seq<Octet>)
    requires AllStorable(segs) && source == RecordsOf(segs)
    ensures Parsed(segs, 0, source) && EncodedSoFar(w, segs, 0) == []
  {
    assert segs[0..] == segs;
  }

  lemma AllParsed(w: CountWidths, segs: seq<Segment>, k: int, rest: seq<Octet>)
    requires Parsed(segs, k, rest) && rest == []
    ensures AllValid(segs) && EncodedSoFar(w, segs, k) == EncodeSegments(w, segs)
  {
    FirstRecord(segs[k..], rest);
    assert segs[..k] == segs;
  }

  /** The next record is read as it was kept, and there is room for it. */
  lemma ParseNext(w: CountWidths, segs: seq<Segment>, k: int, rest: seq<Octet>, room: nat)
    requires Parsed(segs, k, rest) && rest != [] && TotalLength(w, segs) <= room <= 8 * MAX_DATA_WORDS
    ensures k < |segs| && segs[k].mode != Auto && segs[k].data != [] && 5 + |segs[k].data| <= |rest|
    ensures rest[0] >= 0x80 && ModeOfNumber(rest[0] - 0x80) == Some(segs[k].mode)
    ensures SizeOf(rest[1], rest[2], rest[3], rest[4]) == |segs[k].data| && rest[5..5 + |segs[k].data|] == segs[k].data
    ensures |EncodedSoFar(w, segs, k)| + EncodedLength(w, |segs[k].data|, segs[k].mode) <= room
    ensures Segment(segs[k].mode, segs[k].data) == segs[k]
    ensures segs[k].Valid() ==>
              && Parsed(segs, k + 1, rest[5 + |segs[k].data|..])
              && EncodedSoFar(w, segs, k + 1) == EncodedSoFar(w, segs, k) + EncodeSegment(w, segs[k])
    ensures AllValid(segs) ==> segs[k].Valid()
  {
    hide TotalLength, EncodeSegments, EncodeSegment, EncodedLength, SizeOf, AlnumCode, EncodedSoFar, RecordsOf;
    FirstRecord(segs[k..], rest);
    NextHasRoom(w, segs, k, room);
    NextEncoded(w, segs, k);
    assert segs[k..][1..] == segs[k + 1..];
  }

  lemma NextHasRoom(w: CountWidths, segs: seq<Segment>, k: nat, room: nat)
    requires AllStorable(segs) && k < |segs| && AllValid(segs[..k]) && TotalLength(w, segs) <= room <= 8 * MAX_DATA_WORDS
    ensures |EncodedSoFar(w, segs, k)| + EncodedLength(w, |segs[k].data|, segs[k].mode) <= room
    ensures |segs[k].data| < MAX_SIZE
  {
    hide EncodeSegments, EncodedLength;
    EncodeSegmentsLength(w, segs[..k]);
    TotalOfPrefix(w, segs, k + 1);
    var front := segs[..k + 1];
    assert front[..k] == segs[..k] && front[k] == segs[k];
    SizeOfFitting(w, segs[k], room);
  }

  lemma NextEncoded(w: CountWidths, segs: seq<Segment>, k: nat)
    requires k < |segs| && AllValid(segs[..k]) && segs[k].Storable()
    ensures segs[k].Valid() ==>
              && AllValid(segs[..k + 1])
              && EncodedSoFar(w, segs, k + 1) == EncodedSoFar(w, segs, k) + EncodeSegment(w, segs[k])
  {
    hide EncodeSegment;
    var front := segs[..k + 1];
    assert front[..k] == segs[..k] && front[k] == segs[k];
  }

  lemma {:induction false} TotalOfPrefix(w: CountWidths, segs: seq<Segment>, k: nat)
    requires AllStorable(segs) && k <= |segs|
    ensures TotalLength(w, segs[..k]) <= TotalLength(w, segs)
    decreases |segs|
  {
    if k < |segs| {
      TotalOfPrefix(w, segs[..|segs| - 1], k);
      assert segs[..|segs| - 1][..k] == segs[..k];
    } else {
      assert segs[..k] == segs;
    }
  }

  lemma SizeOfFitting(w: CountWidths, s: Segment, room: nat)
    requires s.Storable() && EncodedLength(w, |s.data|, s.mode) <= room <= 8 * MAX_DATA_WORDS
    ensures |s.data| < MAX_SIZE
  {
  }

  // ---- Choice of the mask ----

  /** Of the first n masks none gives a lower penalty, and none before it an equal one. */
  ghost predicate IsBestMask(g: Grid, dim: nat, mask: nat, n: nat)
    requires dim > 0 && IsGrid(g, dim) && n <= MASKS && mask < MASKS
  {
    && mask < n
    && forall k :: 0 <= k < n ==>
         && Penalty.TotalPenalty(MaskedGrid(g, dim, mask), dim) <= Penalty.TotalPenalty(MaskedGrid(g, dim, k), dim)
         && (k < mask ==> Penalty.TotalPenalty(MaskedGrid(g, dim, mask), dim) < Penalty.TotalPenalty(MaskedGrid(g, dim, k), dim))
  }

  /** Masking either of the two gives the same. */
  ghost predicate SameUnderMasks(g: Grid, h: Grid, dim: nat)
    requires dim > 0 && IsGrid(g, dim) && IsGrid(h, dim)
  {
    forall k :: 0 <= k < MASKS ==> MaskedGrid(h, dim, k) == MaskedGrid(g, dim, k)
  }

  lemma DimensionPositive(v: int)
    requires IsVersion(v)
    ensures Dimension(v) > 0 && MASKS == 8
    ensures forall g: Grid :: IsGrid(g, Dimension(v)) <==> |g| == Dimension(v) * Dimension(v)
  {
  }

  lemma NotMaskedYet(g: Grid, dim: nat)
    requires dim > 0 && IsGrid(g, dim)
    ensures SameUnderMasks(g, g, dim)
  {
  }

  lemma TrialOf(g: Grid, h: Grid, dim: nat, mask: nat)
    requires dim > 0 && IsGrid(g, dim) && IsGrid(h, dim) && mask < MASKS && SameUnderMasks(g, h, dim)
    ensures MaskedGrid(h, dim, mask) == MaskedGrid(g, dim, mask)
    ensures IsGrid(MaskedGrid(g, dim, mask), dim) && SameUnderMasks(g, MaskedGrid(g, dim, mask), dim)
  {
    hide MaskedGrid;
    forall k | 0 <= k < MASKS ensures MaskedGrid(MaskedGrid(g, dim, mask), dim, k) == MaskedGrid(g, dim, k) {
      TrialsIndependent(g, dim, mask, k);
    }
  }

  lemma NextTrial(g: Grid, dim: nat, mask: nat, k: nat, penalty: int, best: int)
    requires dim > 0 && IsGrid(g, dim) && mask < MASKS && k < MASKS
    requires penalty == Penalty.TotalPenalty(MaskedGrid(g, dim, k), dim)
    requires k > 0 ==> IsBestMask(g, dim, mask, k) && best == Penalty.TotalPenalty(MaskedGrid(g, dim, mask), dim)
    ensures k == 0 || penalty < best ==> IsBestMask(g, dim, k, k + 1)
    ensures k > 0 && penalty >= best ==> IsBestMask(g, dim, mask, k + 1)
  {
    hide MaskedGrid, Penalty.TotalPenalty;
  }

  // ---- Headers ----

  const HEADER_BITS := 20

  /** Mode 3, which symbol of the message this is, which is the last, and the parity of the message. */
  function Header(index: nat, last: nat, parity: nat): (h: seq<bool>)
    ensures |h| == HEADER_BITS
  {
    ToBits(4, 3) + ToBits(4, index) + ToBits(4, last) + ToBits(8, parity)
  }

  lemma ZeroHeader()
    ensures [] + ToBits(4, 0) + ToBits(4, 0) + ToBits(4, 0) + ToBits(8, 0) == Zeros(HEADER_BITS) && HEADER_BITS == 20
  {
    ToBitsOfZero(4);
    ToBitsOfZero(8);
    hide ToBits;
  }

  lemma HeaderStart(head: seq<bool>, body: seq<bool>)
    requires head == Zeros(HEADER_BITS)
    ensures [] + Zeros(HEADER_BITS) + body == head + body && HEADER_BITS == 20 && CursorOf(0, 7) == 0
  {
  }

  lemma HeaderDone(data: seq<bv8>, head: seq<bool>, index: nat, last: nat, parity: nat, body: seq<bool>)
    requires head == Header(index, last, parity)
    requires Written(data, [] + ToBits(4, 3) + ToBits(4, index) + ToBits(4, last) + ToBits(8, parity) + Zeros(0) + body)
    ensures Written(data, head + body) && |head| == |Zeros(HEADER_BITS)| && |head + body| == |Zeros(HEADER_BITS) + body|
  {
    hide ToBits, Written;
    assert [] + ToBits(4, 3) == ToBits(4, 3);
    assert head + Zeros(0) == head;
  }

  lemma FieldFits(data: seq<bv8>, done: seq<bool>, n: nat, left: nat, body: seq<bool>)
    requires n <= left && Written(data, done + Zeros(left) + body)
    ensures |done| + n <= 8 * |data|
  {
    hide BitStream;
  }

  lemma FieldWritten(before: seq<bv8>, after: seq<bv8>, done: seq<bool>, n: nat, word: nat, left: nat, body: seq<bool>)
    requires 0 < n <= left && Written(before, done + Zeros(left) + body) && BitsOred(before, after, |done|, n, word)
    ensures Written(after, done + ToBits(n, word) + Zeros(left - n) + body)
  {
    hide ToBits, Written, BitsOred;
    var bits := done + Zeros(left) + body;
    OredReplacesZeros(before, after, bits, |done|, n, word);
    assert bits[..|done|] == done && bits[|done| + n..] == Zeros(left - n) + body;
    Regroup(done + ToBits(n, word), Zeros(left - n), body);
  }

  // ---- Streams of segments ----

  lemma AllBytes(data: seq<Octet>)
    ensures AllCharsOf(EightBit, data)
  {
  }

  lemma NoSegments(w: CountWidths, head: seq<bool>)
    ensures head == [] ==> head + EncodeSegments(w, []) == []
  {
  }

  lemma RoomInBuffer(v: int, level: nat)
    requires IsVersion(v) && level < 4
    ensures Capacity(v, level) <= 8 * MAX_DATA_WORDS
  {
    TableConsistent(v, level);
  }

  lemma StreamLength(head: seq<bool>, w: CountWidths, segs: seq<Segment>)
    requires AllValid(segs)
    ensures |head + EncodeSegments(w, segs)| == |head| + TotalLength(w, segs)
  {
    EncodeSegmentsLength(w, segs);
  }

  lemma StreamGrows(head: seq<bool>, w: CountWidths, segs: seq<Segment>, s: Segment)
    requires AllValid(segs) && s.Valid()
    ensures head + EncodeSegments(w, segs + [s]) == head + EncodeSegments(w, segs) + EncodeSegment(w, s)
  {
    hide EncodeSegment;
    assert (segs + [s])[..|segs|] == segs;
    Regroup(head, EncodeSegments(w, segs), EncodeSegment(w, s));
  }

  // ---- Steps of the walk ----

  /** e is where the first free module after c is, or the end of the walk. */
  ghost predicate IsNextFree(g: Grid, dim: nat, c: Cursor, e: Cursor)
    requires IsDimension(dim) && IsGrid(g, dim)
  {
    && (OnWalk(dim, e) || e == End(dim)) && (OnWalk(dim, e) ==> FreeAt(g, dim, e))
    && Next(dim, c).row < dim && e.row < dim && FreeFrom(g, dim, Next(dim, c)) == FreeFrom(g, dim, e)
  }

  lemma DimensionFacts(v: int, g: Grid, c: Cursor)
    requires IsVersion(v) && HasFunctionPattern(g, v) && OnWalk(Dimension(v), c)
    ensures IsDimension(Dimension(v)) && IsGrid(g, Dimension(v))
    ensures c.row < Dimension(v) && Next(Dimension(v), c).row < Dimension(v)
  {
    hide IsFunctionModule;
  }

  /** Having stepped from e to the next place: where it lies in memory, and what it means that it is free or not. */
  lemma NextFacts(g: Grid, h: Grid, v: int, c: Cursor, e: Cursor, next: Cursor)
    requires IsVersion(v) && HasFunctionPattern(g, v) && IsGrid(h, Dimension(v)) && SameFunction(g, h, Dimension(v))
    requires OnWalk(Dimension(v), e) && next == Next(Dimension(v), e) && Next(Dimension(v), c).row < Dimension(v)
    requires FreeFrom(g, Dimension(v), Next(Dimension(v), c)) == FreeFrom(g, Dimension(v), next)
    ensures next.row < Dimension(v) && 0 <= Index(Dimension(v), Y(Dimension(v), next), X(Dimension(v), next)) < |h|
    ensures var more := IsFunc(h[Index(Dimension(v), Y(Dimension(v), next), X(Dimension(v), next))]);
            && (more ==> OnWalk(Dimension(v), next))
            && (more ==> FreeFrom(g, Dimension(v), Next(Dimension(v), c)) == FreeFrom(g, Dimension(v), Next(Dimension(v), next)))
            && (!more ==> IsNextFree(g, Dimension(v), c, next))
    ensures Next(Dimension(v), next).row < Dimension(v)
  {
    hide IsFunctionModule, IsFunc, FreeFrom, X, Y;
    var dim := Dimension(v);
    StepIsNext(dim, e);
    if OnWalk(dim, next) {
      WalkInside(dim, next);
      IndexInside(dim, Y(dim, next), X(dim, next));
      FreeFromStep(g, dim, next);
    } else {
      StartIsFree(v);
      assert Index(dim, dim - 1, -1) == Index(dim, dim - 2, dim - 1) by { IndexOneBefore(dim); }
      IndexInside(dim, dim - 2, dim - 1);
      assert !IsFunc(At(g, dim, dim - 2, dim - 1)) && !IsFunc(At(h, dim, dim - 2, dim - 1));
    }
  }

  lemma IndexOneBefore(dim: nat)
    ensures Index(dim, dim - 1, -1) == Index(dim, dim - 2, dim - 1)
  {
  }

  /** The first k bits are placed, and c is where bit k goes. */
  ghost predicate Walking(g: Grid, dim: nat, bits: seq<bool>, k: nat, c: Cursor, h: Grid) {
    && IsDimension(dim) && IsGrid(g, dim) && IsGrid(h, dim) && k <= |bits| <= |FreeOrder(g, dim)|
    && Placed(g, dim, bits, k, h)
    && ((OnWalk(dim, c) && FreeAt(g, dim, c)) || c == End(dim))
    && c.row < dim && FreeFrom(g, dim, c) == FreeOrder(g, dim)[k..]
  }

  lemma StartOfWalk(g: Grid, v: int, bits: seq<bool>)
    requires IsVersion(v) && HasFunctionPattern(g, v) && |bits| == 8 * TotalWords(v)
    ensures Walking(g, Dimension(v), bits, 0, Cursor(0, 0, false), g)
  {
    FreeModulesFit(g, v);
    StartIsFree(v);
    hide IsFunctionModule, IsFunc, FreeFrom, TotalWords, RemainderBits, SetData;
    var dim := Dimension(v);
    assert !IsFunc(At(g, dim, dim - 1, dim - 1));
    assert FreeOrder(g, dim)[0..] == FreeOrder(g, dim);
  }

  lemma CodewordBits(code: seq<bv8>, i: nat)
    requires i < |code|
    ensures 8 * i + 8 <= |BitStream(code)|
    ensures forall j :: 0 <= j < 8 ==> BitStream(code)[8 * i + 7 - j] == HasBit(code[i], j)
  {
    hide HasBit;
    forall j | 0 <= j < 8 ensures BitStream(code)[8 * i + 7 - j] == HasBit(code[i], j) {
      var p := 8 * i + (7 - j);
      assert p / 8 == i && p % 8 == 7 - j;
    }
  }

  /** While there are bits left, the walk is not at its end, and stands where the next bit goes. */
  lemma WalkPlace(g: Grid, dim: nat, bits: seq<bool>, k: nat, c: Cursor, h: Grid)
    requires Walking(g, dim, bits, k, c, h) && k < |bits|
    ensures OnWalk(dim, c) && k < |FreeOrder(g, dim)| && FreeOrder(g, dim)[k] == c
    ensures Inside(dim, Y(dim, c), X(dim, c)) && 0 <= Index(dim, Y(dim, c), X(dim, c)) < |h|
  {
    hide FreeFrom, FreeOrder, FreeAt, Placed, X, Y;
    FreeFromStep(g, dim, if OnWalk(dim, c) then c else Cursor(0, 0, false));
    assert FreeOrder(g, dim)[k..][0] == FreeOrder(g, dim)[k];
    WalkInside(dim, c);
    IndexInside(dim, Y(dim, c), X(dim, c));
  }

  lemma WalkPlaced(g: Grid, dim: nat, bits: seq<bool>, k: nat, c: Cursor, h: Grid, h': Grid)
    requires Walking(g, dim, bits, k, c, h) && k < |bits| && OnWalk(dim, c)
    requires k < |FreeOrder(g, dim)| && FreeOrder(g, dim)[k] == c && 0 <= Index(dim, Y(dim, c), X(dim, c)) < |h|
    requires h' == if bits[k] then h[Index(dim, Y(dim, c), X(dim, c)) := SetData(h[Index(dim, Y(dim, c), X(dim, c))])] else h
    ensures IsGrid(g, dim) && IsDimension(dim) && IsGrid(h', dim) && Placed(g, dim, bits, k + 1, h')
    ensures SameFunction(g, h', dim)
  {
    WalkInside(dim, c);
    hide FreeFrom, FreeOrder, FreeAt, Placed, X, Y, SetData, SameFunction;
    PlacedOneMore(g, dim, bits, k, h, h');
    PlacedKeepsFunction(g, dim, bits, k + 1, h');
  }

  lemma WalkMoved(g: Grid, dim: nat, bits: seq<bool>, k: nat, c: Cursor, h: Grid, e: Cursor)
    requires IsDimension(dim) && IsGrid(g, dim) && IsGrid(h, dim) && k < |bits| <= |FreeOrder(g, dim)| && OnWalk(dim, c)
    requires FreeOrder(g, dim)[k] == c && FreeAt(g, dim, c) && FreeFrom(g, dim, c) == FreeOrder(g, dim)[k..]
    requires Placed(g, dim, bits, k + 1, h) && IsNextFree(g, dim, c, e)
    ensures Walking(g, dim, bits, k + 1, e, h)
  {
    hide FreeFrom, FreeOrder, FreeAt, Placed, X, Y;
    FreeFromStep(g, dim, c);
    assert FreeOrder(g, dim)[k..][1..] == FreeOrder(g, dim)[k + 1..];
  }

  lemma WalkDone(g: Grid, dim: nat, bits: seq<bool>, c: Cursor, h: Grid)
    requires Walking(g, dim, bits, |bits|, c, h)
    ensures IsDimension(dim) && IsGrid(g, dim) && IsGrid(h, dim) && |bits| <= |FreeOrder(g, dim)|
    ensures Placed(g, dim, bits, |bits|, h)
  {
  }

  lemma GroupMeans(m: Mode, data: seq<Octet>, p: nat, n: nat, word: nat)
    requires Writable(m) && GroupsDone(m, data, p, n, word) && GroupSize(m) <= n + 1
    ensures n + 1 == GroupSize(m) && n <= p && (p + 1 - (n + 1)) % GroupSize(m) == 0
  {
  }

  /** The groups done when a character turns out foreign. */
  lemma GroupsBefore(m: Mode, data: seq<Octet>, p: nat, n: nat, word: nat)
    requires Writable(m) && GroupsDone(m, data, p, n, word) && n <= p < |data| && n < GroupSize(m) && !IsCharOf(m, data[p])
    ensures WholeGroups(m, data) == data[..p - n]
  {
    hide EncodeChars, AlnumCode;
    ForeignAt(m, data, p);
  }

  lemma ForeignAt(m: Mode, data: seq<Octet>, p: nat)
    requires p < |data| && AllCharsOf(m, data[..p]) && !IsCharOf(m, data[p])
    ensures FirstForeign(m, data) == p
  {
  }

  lemma BrokenOffIs(w: CountWidths, m: Mode, data: seq<Octet>, bits: seq<bool>, id: seq<bool>, size: seq<bool>)
    requires m != Auto && id == ToBits(4, ModeId(m)) && size == ToBits(w.Of(m), if m == Kanji then |data| / 2 else |data|)
    ensures bits + BrokenOff(w, m, data) ==
            if m == Kanji then bits + id + size else bits + id + size + EncodeChars(m, WholeGroups(m, data))
  {
    hide EncodeChars, WholeGroups, ToBits;
  }

  lemma FitsIs(v: int, segs: seq<Segment>, level: nat)
    requires IsVersion(v) && level < 4 && AllStorable(segs)
    ensures Fits(v, segs, level) <==> TotalLength(Widths(v), segs) <= Capacity(v, level)
  {
  }

  lemma NoneToAppend(n: nat, word: nat)
    ensures (if n > 0 then n else 0) == n
  {
  }

  lemma SegmentWritten(bits: seq<bool>, id: seq<bool>, size: seq<bool>, chars: seq<bool>)
    ensures bits + id + size + chars == bits + (id + size + chars)
  {
  }

  /** Terminator and fill bits. */
  lemma TailStart(bits: seq<bool>, room: int, m: nat, all: seq<bool>)
    requires m == (if room < 4 then 0 else (room - 4) % 8)
    requires all == bits + ToBits(if room < 0 then 0 else if room < 4 then room else 4, 0) + ToBits(m, 0)
    ensures room >= 0 ==> all == bits + Zeros(Filler(room)) && |all| == |bits| + Filler(room)
    ensures room < 0 ==> all == bits
  {
    var a := if room < 0 then 0 else if room < 4 then room else 4;
    ToBitsOfZero(a);
    ToBitsOfZero(m);
    assert Zeros(a) + Zeros(m) == Zeros(a + m);
    Regroup(bits, Zeros(a), Zeros(m));
    hide ToBits;
    if room < 0 {
      assert bits + Zeros(0) == bits;
    }
  }

  lemma NothingAppended(bits: seq<bool>)
    ensures bits + ToBits(0, 0) == bits
  {
  }

  lemma NoPadding(bits: seq<bool>)
    ensures bits + Padding(0, true) == bits
  {
  }

  lemma TailEnd(bits: seq<bool>, room: int, all: seq<bool>, k: nat)
    requires room >= 0 ==> all == bits + Zeros(Filler(room)) && 8 * k == room - Filler(room)
    requires room < 0 ==> all == bits && k == 0
    ensures all + Padding(k, true) == if room >= 0 then bits + Tail(room) else bits
  {
    hide Tail, Zeros, Filler, Padding, ToBits;
    if room >= 0 {
      TailParts(room);
      Regroup(bits, Zeros(Filler(room)), Padding(k, true));
    } else {
      NoPadding(bits);
    }
  }

  /** The first words hold the front of the stream. */
  lemma FrontOfStream(data: seq<bv8>, words: nat, bits: seq<bool>)
    requires words <= |data| && 8 * words <= |bits| && Written(data, bits)
    ensures BitStream(data[..words]) == bits[..8 * words]
  {
    hide HasBit;
    forall i | 0 <= i < 8 * words ensures BitStream(data[..words])[i] == bits[..8 * words][i] {
      assert BitStream(data)[i] == bits[i];
    }
  }

  lemma NoGroup(m: Mode, word: nat, bits: seq<bool>)
    requires Writable(m)
    ensures bits + ToBits(GroupWidth(m, 0), word) == bits
  {
  }

  lemma CursorMeans(dwpos: int, dwbit: int)
    ensures CursorOf(dwpos, dwbit) == 8 * dwpos + 7 - dwbit
  {
  }

  lemma AllOred(before: seq<bv8>, now: seq<bv8>, c: nat, n: nat, word: nat)
    requires OredSoFar(before, now, c, n, word, n)
    ensures BitsOred(before, now, c, n, word)
  {
  }
}
