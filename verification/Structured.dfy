/**
 Structured append (ISO/IEC 18004:2015, section 8): a message is cut into pieces for up to 16 symbols, each of which says
 which one it is, how many there are, and the parity of the whole message.
 */
module Structured {
  import opened Bits
  import opened Options
  import opened Segments
  import opened Records
  import opened VersionTable
  import opened VersionChoice
  import opened DataStream
  import opened Modules
  import opened Masking
  import opened SymbolReader
  import opened ReadBack
  import opened QrCodes
  import FormatInfo

  const MAX_SYMBOLS := 16

  // ---- Parity ----

  /** `a ^ b`, bit by bit. */
  function XorOctet(a: Octet, b: Octet): Octet {
    var bits := seq(8, i requires 0 <= i < 8 => BitOf(a, 7 - i) != BitOf(b, 7 - i));
    FromBitsSmall(bits);
    FromBits(bits)
  }

  lemma {:induction false} FromBitsSmall(bits: seq<bool>)
    ensures FromBits(bits) < Pow2(|bits|) && Pow2(8) == 256
  {
    if bits != [] {
      FromBitsSmall(bits[..|bits| - 1]);
    }
  }

  /** The bytes of data taken into a parity one after the other. */
  function Parity(start: Octet, data: seq<Octet>): Octet {
    if data == [] then start else XorOctet(Parity(start, data[..|data| - 1]), data[|data| - 1])
  }

  lemma {:induction false} ParityOfBoth(start: Octet, a: seq<Octet>, b: seq<Octet>)
    ensures Parity(start, a + b) == Parity(Parity(start, a), b)
  {
    hide XorOctet;
    if b == [] {
      assert a + b == a;
    } else {
      ParityOfBoth(start, a, b[..|b| - 1]);
      assert (a + b)[..|a + b| - 1] == a + b[..|b| - 1];
    }
  }

  /** How many of the bytes have bit k set. */
  function BitCount(data: seq<Octet>, k: nat): nat {
    if data == [] then 0 else BitCount(data[..|data| - 1], k) + (if BitOf(data[|data| - 1], k) then 1 else 0)
  }

  /** Every bit says whether an odd number of bytes of the message have it. */
  ghost predicate IsParityOf(parity: nat, message: seq<Octet>) {
    forall k :: 0 <= k < 8 ==> (BitOf(parity, k) <==> BitCount(message, k) % 2 == 1)
  }

  lemma ParityMeans(data: seq<Octet>)
    ensures IsParityOf(Parity(0, data), data)
  {
    hide Parity, BitOf, BitCount;
    forall k | 0 <= k < 8 ensures BitOf(Parity(0, data), k) <==> BitCount(data, k) % 2 == 1 {
      ParityBit(data, k);
    }
  }

  lemma {:induction false} ParityBit(data: seq<Octet>, k: nat)
    requires k < 8
    ensures BitOf(Parity(0, data), k) <==> BitCount(data, k) % 2 == 1
  {
    hide BitOf, XorOctet;
    if data == [] {
      NoBits(k);
    } else {
      ParityBit(data[..|data| - 1], k);
      XorOctetBits(Parity(0, data[..|data| - 1]), data[|data| - 1], k);
    }
  }

  lemma {:induction false} NoBits(k: nat)
    ensures !BitOf(0, k)
  {
    if k > 0 {
      NoBits(k - 1);
    }
  }

  lemma XorOctetBits(a: Octet, b: Octet, k: nat)
    requires k < 8
    ensures BitOf(XorOctet(a, b), k) <==> BitOf(a, k) != BitOf(b, k)
  {
    hide BitOf, FromBits;
    FromBitsAt(seq(8, i requires 0 <= i < 8 => BitOf(a, 7 - i) != BitOf(b, 7 - i)), k);
  }

  lemma {:induction false} FromBitsAt(bits: seq<bool>, k: nat)
    requires k < |bits|
    ensures BitOf(FromBits(bits), k) == bits[|bits| - 1 - k]
  {
    if k > 0 {
      FromBitsAt(bits[..|bits| - 1], k - 1);
    }
  }

  // ---- Cutting ----

  function Sum(sizes: seq<nat>): nat {
    if sizes == [] then 0 else Sum(sizes[..|sizes| - 1]) + sizes[|sizes| - 1]
  }

  lemma SumAppend(sizes: seq<nat>, n: nat)
    ensures Sum(sizes + [n]) == Sum(sizes) + n
  {
    assert (sizes + [n])[..|sizes|] == sizes;
  }

  /** Room for characters in one symbol: the first piece goes behind what is there already. */
  function RoomFor(w: CountWidths, m: Mode, remain: int, limit: int, i: nat): nat
    requires m != Auto
  {
    EncodableLength(w, if i == 0 then remain else limit, m)
  }

  /** Every piece but the last takes all the room there is; the last takes what is left, which is not nothing. */
  ghost predicate IsCut(w: CountWidths, m: Mode, size: nat, remain: int, limit: int, sizes: seq<nat>)
    requires m != Auto
  {
    && sizes != [] && Sum(sizes) == size
    && (forall i :: 0 <= i < |sizes| - 1 ==> sizes[i] == RoomFor(w, m, remain, limit, i))
    && 0 < sizes[|sizes| - 1] <= RoomFor(w, m, remain, limit, |sizes| - 1)
  }

  /** Characters that n symbols have room for. */
  function TotalRoom(w: CountWidths, m: Mode, remain: int, limit: int, n: nat): nat
    requires m != Auto
  {
    if n == 0 then 0 else TotalRoom(w, m, remain, limit, n - 1) + RoomFor(w, m, remain, limit, n - 1)
  }

  /** Cuts size characters into at most n pieces, if n symbols have room for them. */
  method Cut(w: CountWidths, m: Mode, size: nat, remain: int, limit: int, n: nat) returns (ok: bool, sizes: seq<nat>)
    requires m != Auto && size > 0
    ensures ok <==> size <= TotalRoom(w, m, remain, limit, n)
    ensures ok ==> IsCut(w, m, size, remain, limit, sizes) && |sizes| <= n
  {
    hide *;
    sizes := [];
    var s, r := size, remain;
    var i := 0;
    NothingCut(w, m, remain, limit);
    while i < n
      invariant i <= n && |sizes| == i && s > 0 && r == if i == 0 then remain else limit
      invariant Sum(sizes) + s == size && Sum(sizes) == TotalRoom(w, m, remain, limit, i)
      invariant AllFull(w, m, remain, limit, sizes)
    {
      var l := EncodableLength(w, r, m);
      NextPiece(w, m, size, remain, limit, sizes, s, n);
      if s <= l {
        return true, sizes + [s];
      }
      sizes := sizes + [l];
      s := s - l;
      r := limit;
      i := i + 1;
    }
    ok := false;
  }

  ghost predicate AllFull(w: CountWidths, m: Mode, remain: int, limit: int, sizes: seq<nat>)
    requires m != Auto
  {
    forall i :: 0 <= i < |sizes| ==> sizes[i] == RoomFor(w, m, remain, limit, i)
  }

  lemma NothingCut(w: CountWidths, m: Mode, remain: int, limit: int)
    requires m != Auto
    ensures Sum([]) == TotalRoom(w, m, remain, limit, 0) == 0 && AllFull(w, m, remain, limit, [])
  {
  }

  lemma NextPiece(w: CountWidths, m: Mode, size: nat, remain: int, limit: int, sizes: seq<nat>, s: nat, n: nat)
    requires m != Auto && |sizes| < n && s > 0 && AllFull(w, m, remain, limit, sizes) && Sum(sizes) + s == size
    requires Sum(sizes) == TotalRoom(w, m, remain, limit, |sizes|)
    ensures var l := EncodableLength(w, if |sizes| == 0 then remain else limit, m);
            && Sum(sizes + [l]) == Sum(sizes) + l == TotalRoom(w, m, remain, limit, |sizes| + 1)
            && AllFull(w, m, remain, limit, sizes + [l])
            && (s <= l ==> IsCut(w, m, size, remain, limit, sizes + [s]) && size <= TotalRoom(w, m, remain, limit, n))
  {
    hide EncodableLength, Sum;
    var l := EncodableLength(w, if |sizes| == 0 then remain else limit, m);
    SumAppend(sizes, s);
    SumAppend(sizes, l);
    RoomGrows(w, m, remain, limit, |sizes| + 1, n);
  }

  lemma {:induction false} RoomGrows(w: CountWidths, m: Mode, remain: int, limit: int, a: nat, b: nat)
    requires m != Auto && a <= b
    ensures TotalRoom(w, m, remain, limit, a) <= TotalRoom(w, m, remain, limit, b)
  {
    hide EncodableLength;
    if a < b {
      RoomGrows(w, m, remain, limit, a, b - 1);
    }
  }

  /** The pieces of data that the sizes say, each as a segment. */
  function Offset(sizes: seq<nat>, i: nat): nat
    requires i <= |sizes|
  {
    Sum(sizes[..i])
  }

  lemma OffsetNext(sizes: seq<nat>, i: nat)
    requires i < |sizes|
    ensures Offset(sizes, 0) == 0 && Offset(sizes, i + 1) == Offset(sizes, i) + sizes[i]
    ensures Offset(sizes, i + 1) <= Sum(sizes)
  {
    assert sizes[..i + 1][..i] == sizes[..i];
    OffsetBound(sizes, i + 1);
  }

  lemma {:induction false} OffsetBound(sizes: seq<nat>, i: nat)
    requires i <= |sizes|
    ensures Offset(sizes, i) <= Sum(sizes) && Offset(sizes, |sizes|) == Sum(sizes)
    decreases |sizes|
  {
    assert sizes[..|sizes|] == sizes;
    if i < |sizes| {
      var front := sizes[..|sizes| - 1];
      OffsetBound(front, i);
      assert front[..i] == sizes[..i];
    }
  }

  /** What fits by number of characters fits by number of bits. */
  lemma PieceFits(w: CountWidths, m: Mode, size: nat, limit: int)
    requires m != Auto && 0 < size <= EncodableLength(w, limit, m)
    ensures EncodedLength(w, size, m) <= limit
  {
  }

  // ---- The message ----

  /** The data of a list of segments, put together. */
  function DataOf(segs: seq<Segment>): seq<Octet> {
    if segs == [] then [] else DataOf(segs[..|segs| - 1]) + segs[|segs| - 1].data
  }

  /** The data of all symbols, put together. */
  function MessageOf(contents: seq<seq<Segment>>): seq<Octet> {
    if contents == [] then [] else MessageOf(contents[..|contents| - 1]) + DataOf(contents[|contents| - 1])
  }

  /** Something added to the last symbol is added to the message. */
  lemma MessageGrows(contents: seq<seq<Segment>>, s: Segment)
    requires contents != []
    ensures var k := |contents| - 1;
            MessageOf(contents[k := contents[k] + [s]]) == MessageOf(contents) + s.data
  {
    var k := |contents| - 1;
    var more := contents[k := contents[k] + [s]];
    assert more[..k] == contents[..k];
    assert (contents[k] + [s])[..|contents[k]|] == contents[k];
    Regroup(MessageOf(contents[..k]), DataOf(contents[k]), s.data);
  }

  lemma MessageWithEmpty(contents: seq<seq<Segment>>)
    ensures MessageOf(contents + [[]]) == MessageOf(contents)
  {
    assert (contents + [[]])[..|contents|] == contents;
  }

  /** No two symbols share memory. */
  ghost predicate Apart(qrs: seq<QrCode>) {
    forall i, j :: 0 <= i < j < |qrs| ==> qrs[i].Parts() !! qrs[j].Parts()
  }

  /** A symbol with its piece of the message, the header still blank. */
  ghost predicate Holding(qr: QrCode, version: int, level: nat, segs: seq<Segment>)
    reads qr, qr.dataword
  {
    qr.Ready() && qr.state == Set && qr.head == Zeros(HEADER_BITS) && qr.version == version && qr.level == level && qr.segs == segs
  }

  ghost predicate IsBlank(qr: QrCode, version: int, level: nat)
    reads qr
  {
    qr.Empty() && qr.version == version && qr.level == level
  }

  ghost predicate IsOpen(qr: QrCode, version: int, level: nat, segs: seq<Segment>)
    reads qr, qr.dataword
  {
    (IsBlank(qr, version, level) && segs == []) || Holding(qr, version, level, segs)
  }

  /** Bits left in a symbol, those of the header not counted. */
  function RoomLeft(qr: QrCode, version: int, level: nat): int
    requires IsVersion(version) && level < 4
    reads qr
  {
    if qr.state == Begin then Capacity(version, level) - HEADER_BITS
    else (LevelOf(version, level).dataWords - qr.dwpos) * 8 - (7 - qr.dwbit)
  }

  /** Writes a piece into a symbol; a blank one gets room for its header first. */
  method WritePiece(cur: QrCode, version: int, level: nat, piece: seq<Octet>, m: Mode, ghost segs: seq<Segment>) returns (r: Outcome)
    requires IsOpen(cur, version, level, segs) && IsVersion(version) && level < 4 && m != Auto && piece != []
    requires EncodedLength(Widths(version), |piece|, m) <= RoomLeft(cur, version, level)
    modifies cur, cur.dataword
    ensures r == if Segment(m, piece).Valid() then Ok else Failed(CharError(m))
    ensures r.Ok? ==> Holding(cur, version, level, segs + [Segment(m, piece)])
  {
    hide Capacity, Widths, EncodedLength, LevelOf, QrCode.Ready, RoomLeft, QrCode.Empty, AlnumCode;
    OpenRoom(cur, version, level, segs);
    var len := EncodedLength(Widths(version), |piece|, m);
    if cur.state == Begin {
      cur.StartHeader();
    }
    r := cur.WriteOn(piece, m, len);
  }

  lemma OpenRoom(cur: QrCode, version: int, level: nat, segs: seq<Segment>)
    requires IsOpen(cur, version, level, segs) && IsVersion(version) && level < 4
    ensures cur.state == Begin ==>
              IsBlank(cur, version, level) && segs == [] && cur.enclen == 0 && RoomLeft(cur, version, level) == Capacity(version, level) - HEADER_BITS
    ensures cur.state != Begin ==>
              Holding(cur, version, level, segs) && RoomLeft(cur, version, level) == Capacity(version, level) - HEADER_BITS - cur.enclen
    ensures |Zeros(HEADER_BITS)| == HEADER_BITS && cur.segs == segs && cur.version == version && cur.level == level
  {
    if cur.state != Begin {
      cur.ReadyMeans();
      StreamLength(cur.head, Widths(version), segs);
    }
    hide LevelOf, Widths, TotalLength, EncodeSegments, Written;
  }

  /** The pieces fit one after the other: the first behind what is there, the others into symbols of their own. */
  ghost predicate Placeable(w: CountWidths, m: Mode, sizes: seq<nat>, remain: int, limit: int, blank: bool)
    requires m != Auto
  {
    && sizes != [] && (blank ==> sizes[0] > 0)
    && (forall i :: 1 <= i < |sizes| ==> sizes[i] > 0 && EncodedLength(w, sizes[i], m) <= limit)
    && (sizes[0] > 0 ==> EncodedLength(w, sizes[0], m) <= remain)
  }

  lemma PieceIsPlaceable(w: CountWidths, m: Mode, sizes: seq<nat>, remain: int, limit: int, blank: bool, i: nat)
    requires m != Auto && Placeable(w, m, sizes, remain, limit, blank) && i < |sizes|
    ensures i > 0 || blank ==> sizes[i] > 0
    ensures sizes[i] > 0 ==> EncodedLength(w, sizes[i], m) <= if i == 0 then remain else limit
  {
    hide EncodedLength;
  }

  lemma PiecesNotEmpty(w: CountWidths, m: Mode, sizes: seq<nat>, remain: int, limit: int, blank: bool)
    requires m != Auto && Placeable(w, m, sizes, remain, limit, blank)
    ensures sizes != [] && forall i :: 1 <= i < |sizes| ==> sizes[i] > 0
  {
  }

  /** Characters before place p are of the mode; then those of the next piece, and all before its end. */
  lemma PieceOf(m: Mode, data: seq<Octet>, p: nat, n: nat)
    requires p + n <= |data| && n > 0 && m != Auto
    requires p > 0 ==> Segment(m, data[..p]).Valid()
    ensures Segment(m, data[p..p + n]).Valid() ==> Segment(m, data[..p + n]).Valid()
    ensures !Segment(m, data[p..p + n]).Valid() ==> !Segment(m, data).Valid()
    ensures data[..p + n] == data[..p] + data[p..p + n]
  {
    hide AlnumCode;
    if !AllCharsOf(m, data[p..p + n]) {
      var k :| 0 <= k < n && !IsCharOf(m, data[p..p + n][k]);
      assert data[p + k] == data[p..p + n][k];
    }
    assert data[..p + n] == data[..p] + data[p..p + n];
  }

  /** What an add is answered: the pieces must have room in n symbols, and the characters must be of the mode. */
  function SplitVerdict(w: CountWidths, m: Mode, data: seq<Octet>, remain: int, limit: int, n: nat): Outcome
    requires m != Auto && data != []
  {
    if EncodedLength(w, |data|, m) > remain && |data| > TotalRoom(w, m, remain, limit, n) then Failed(TooLarge)
    else if Segment(m, data).Valid() then Ok
    else Failed(CharError(m))
  }

  lemma VerdictIs(w: CountWidths, m: Mode, data: seq<Octet>, remain: int, limit: int, n: nat)
    requires m != Auto && data != []
    ensures Segment(m, data).Valid() || m != EightBit
    ensures SplitVerdict(w, m, data, remain, limit, n) ==
            (if EncodedLength(w, |data|, m) > remain && |data| > TotalRoom(w, m, remain, limit, n) then Failed(TooLarge)
             else if Segment(m, data).Valid() then Ok
             else Failed(CharError(m)))
    ensures !Segment(m, data).Valid() ==> IsCharError(Failed(CharError(m)))
  {
  }

  lemma RequestedIs(number: int, data: seq<Octet>, m: Mode)
    requires if number == -1 then m == DetectedMode(data) else ModeOfNumber(number) == Some(m)
    ensures RequestedMode(number, data) == Some(m) && m != Auto
  {
  }

  /** For data of a mode that can be written, the answer says exactly whether the room of all symbols is enough. */
  lemma RoomDecides(w: CountWidths, m: Mode, data: seq<Octet>, remain: int, limit: int, n: nat)
    requires Segment(m, data).Valid() && n > 0
    ensures SplitVerdict(w, m, data, remain, limit, n) == Ok <==> |data| <= TotalRoom(w, m, remain, limit, n)
  {
    LengthAdjoint(w, |data|, remain, m);
    hide EncodableLength, EncodedLength, AlnumCode;
    RoomGrows(w, m, remain, limit, 1, n);
    assert TotalRoom(w, m, remain, limit, 1) == RoomFor(w, m, remain, limit, 0);
  }

  lemma UnknownMode(number: int, data: seq<Octet>)
    requires number != -1 && ModeOfNumber(number) == None
    ensures RequestedMode(number, data) == None && !IsCharError(Failed(InvalidMode))
  {
  }

  /** A cut whose pieces have room in n symbols and the one that is open takes no more than n. */
  lemma PiecesInTable(w: CountWidths, m: Mode, size: nat, remain: int, limit: int, sizes: seq<nat>, n: nat)
    requires m != Auto && (sizes == [size] || IsCut(w, m, size, remain, limit, sizes))
    ensures sizes == [size] || |sizes| <= n + 1 || size > TotalRoom(w, m, remain, limit, n + 1)
  {
    if IsCut(w, m, size, remain, limit, sizes) && |sizes| > n + 1 {
      var k := |sizes| - 1;
      FullPieces(w, m, remain, limit, sizes, k);
      SumAppend(sizes[..k], sizes[k]);
      assert sizes[..k] + [sizes[k]] == sizes;
      RoomGrows(w, m, remain, limit, n + 1, k);
    }
  }

  lemma LimitHasRoom(v: int, level: nat, m: Mode)
    requires IsVersion(v) && level < 4 && m != Auto
    ensures EncodableLength(Widths(v), Capacity(v, level) - HEADER_BITS, m) > 0
  {
    TableConsistent(v, level);
    hide LevelOf, TotalWords;
  }

  lemma CutIsPlaceable(w: CountWidths, m: Mode, data: seq<Octet>, remain: int, limit: int, n: nat, sizes: seq<nat>, blank: bool)
    requires m != Auto && data != [] && (blank ==> remain == limit) && EncodableLength(w, limit, m) > 0
    requires if EncodedLength(w, |data|, m) > remain then IsCut(w, m, |data|, remain, limit, sizes) else sizes == [|data|]
    ensures Placeable(w, m, sizes, remain, limit, blank) && Sum(sizes) == |data| && sizes != []
    ensures TotalRoom(w, m, remain, limit, |sizes| - 1) < |data|
  {
    hide EncodableLength, EncodedLength, Sum, TotalRoom, IsCut;
    if EncodedLength(w, |data|, m) <= remain {
      WholePiece(w, m, |data|, remain, limit);
    } else {
      CutPieces(w, m, |data|, remain, limit, sizes, blank);
    }
  }

  lemma WholePiece(w: CountWidths, m: Mode, size: nat, remain: int, limit: int)
    requires m != Auto
    ensures Sum([size]) == size && TotalRoom(w, m, remain, limit, 0) == 0
  {
    assert [size][..0] == [];
  }

  lemma CutPieces(w: CountWidths, m: Mode, size: nat, remain: int, limit: int, sizes: seq<nat>, blank: bool)
    requires m != Auto && size > 0 && (blank ==> remain == limit) && EncodableLength(w, limit, m) > 0
    requires IsCut(w, m, size, remain, limit, sizes)
    ensures Placeable(w, m, sizes, remain, limit, blank) && Sum(sizes) == size && sizes != []
    ensures TotalRoom(w, m, remain, limit, |sizes| - 1) < size
  {
    hide EncodableLength, EncodedLength, Sum, TotalRoom;
    forall i | 0 <= i < |sizes| && sizes[i] > 0
      ensures EncodedLength(w, sizes[i], m) <= if i == 0 then remain else limit
    {
      PieceFits(w, m, sizes[i], if i == 0 then remain else limit);
    }
    var k := |sizes| - 1;
    FullPieces(w, m, remain, limit, sizes, k);
    SumAppend(sizes[..k], sizes[k]);
    assert sizes[..k] + [sizes[k]] == sizes;
  }

  lemma {:induction false} FullPieces(w: CountWidths, m: Mode, remain: int, limit: int, sizes: seq<nat>, k: nat)
    requires m != Auto && k <= |sizes| && forall i :: 0 <= i < k ==> sizes[i] == RoomFor(w, m, remain, limit, i)
    ensures Sum(sizes[..k]) == TotalRoom(w, m, remain, limit, k)
  {
    hide EncodableLength;
    if k > 0 {
      FullPieces(w, m, remain, limit, sizes, k - 1);
      assert sizes[..k][..k - 1] == sizes[..k - 1];
    }
  }

  lemma AllPlaced(sizes: seq<nat>, data: seq<Octet>)
    ensures Offset(sizes, |sizes|) == Sum(sizes) && data[..|data|] == data
  {
    assert sizes[..|sizes|] == sizes;
  }

  lemma StartPieces(data: seq<Octet>, sizes: seq<nat>, message: seq<Octet>)
    ensures Offset(sizes, 0) == 0 && message + data[..0] == message
  {
  }

  // ---- Finishing ----

  /** A symbol shows its header and its part of the message. */
  ghost predicate PartShown(p: Printed, version: int, level: nat, mask: int, index: nat, last: nat, parity: nat, segs: seq<Segment>)
  {
    && IsVersion(version) && level < 4 && 0 <= mask < MASKS && AllValid(segs)
    && HEADER_BITS + TotalLength(Widths(version), segs) <= Capacity(version, level)
    && Shows(p, version, level, mask,
             Completed(Header(index, last, parity) + EncodeSegments(Widths(version), segs), Capacity(version, level)))
  }

  ghost predicate Done(qr: QrCode, version: int, level: nat, index: nat, last: nat, parity: nat, segs: seq<Segment>)
    reads qr, qr.symbol
  {
    PartShown(Colours(qr.symbol[..]), version, level, qr.mask, index, last, parity, segs)
  }

  lemma DoneMeans(qr: QrCode, version: int, level: nat, index: nat, last: nat, parity: nat, segs: seq<Segment>)
    requires Done(qr, version, level, index, last, parity, segs)
    ensures PartShown(Colours(qr.symbol[..]), version, level, qr.mask, index, last, parity, segs)
  {
    hide PartShown, Colours;
  }

  method FinishPart(qr: QrCode, version: int, level: nat, index: nat, last: nat, parity: nat, ghost segs: seq<Segment>)
    requires Holding(qr, version, level, segs)
    modifies qr, qr.dataword, qr.ecword, qr.codeword
    ensures fresh(qr.symbol)
    ensures Done(qr, version, level, index, last, parity, segs)
  {
    hide *;
    HoldingMeans(qr, version, level, segs);
    qr.PutHeader(index, last, parity);
    qr.ReadyIsValid();
    var ok, _ := qr.Finalize();
    qr.FinalMeans();
    PartShownIs(qr, version, level, index, last, parity, segs);
  }

  lemma HoldingMeans(qr: QrCode, version: int, level: nat, segs: seq<Segment>)
    requires Holding(qr, version, level, segs)
    ensures qr.Ready() && qr.state == Set && qr.head == Zeros(HEADER_BITS) && qr.version == version && qr.level == level && qr.segs == segs
    ensures IsVersion(version) && version != -1 && level < 4 && AllValid(segs)
    ensures HEADER_BITS + TotalLength(Widths(version), segs) <= Capacity(version, level)
  {
    qr.ReadyMeans();
    hide QrCode.Ready;
  }

  lemma PartShownIs(qr: QrCode, version: int, level: nat, index: nat, last: nat, parity: nat, segs: seq<Segment>)
    requires IsVersion(version) && level < 4 && AllValid(segs) && 0 <= qr.mask < MASKS
    requires HEADER_BITS + TotalLength(Widths(version), segs) <= Capacity(version, level)
    requires qr.version == version && qr.level == level && qr.segs == segs && qr.head == Header(index, last, parity)
    requires Shows(Colours(qr.symbol[..]), version, level, qr.mask, Completed(qr.Stream(), Capacity(version, level)))
    ensures Done(qr, version, level, index, last, parity, segs)
  {
    qr.StreamMeans();
    hide Shows, Completed, Colours, TotalLength, Capacity, Header, QrCode.Stream;
  }

  // ---- Reading a message ----

  datatype Part = Part(index: nat, last: nat, parity: nat, segs: seq<Segment>)

  function ReadPartBits(w: CountWidths, bits: seq<bool>): Option<Part> {
    if |bits| < HEADER_BITS || FromBits(bits[..4]) != 3 then None
    else
      match ReadSegments(w, bits[HEADER_BITS..])
      case None => None
      case Some(segs) => Some(Part(FromBits(bits[4..8]), FromBits(bits[8..12]), FromBits(bits[12..HEADER_BITS]), segs))
  }

  /** What a reader makes of one symbol of a message. */
  ghost function ReadPart(p: Printed, v: int): Option<Part>
    requires IsVersion(v) && IsPrinted(p, v)
  {
    var f := FormatInfo.ReadFormat(PrintedFormat(p, v, 0));
    ReadPartBits(Widths(v), ReadStream(p, v, f.ecl, f.mask))
  }

  lemma PartOfBits(w: CountWidths, h: seq<bool>, rest: seq<bool>, segs: seq<Segment>)
    requires |h| == HEADER_BITS && FromBits(h[..4]) == 3 && ReadSegments(w, rest) == Some(segs)
    ensures ReadPartBits(w, h + rest) ==
            Some(Part(FromBits(h[4..8]), FromBits(h[8..12]), FromBits(h[12..HEADER_BITS]), segs))
  {
    hide FromBits, ReadSegments;
    var bits := h + rest;
    TakeDrop(h, rest);
    assert bits[..4] == h[..4] && bits[4..8] == h[4..8] && bits[8..12] == h[8..12] && bits[12..HEADER_BITS] == h[12..HEADER_BITS];
  }

  lemma HeaderFields(index: nat, last: nat, parity: nat)
    requires index < MAX_SYMBOLS && last < MAX_SYMBOLS && parity < 256
    ensures var h := Header(index, last, parity);
            && FromBits(h[..4]) == 3 && FromBits(h[4..8]) == index && FromBits(h[8..12]) == last
            && FromBits(h[12..HEADER_BITS]) == parity
  {
    var h := Header(index, last, parity);
    WidthPowers();
    assert Pow2(4) == 16;
    FromToBits(4, 3);
    FromToBits(4, index);
    FromToBits(4, last);
    FromToBits(8, parity);
    hide ToBits, FromBits, Pow2;
    assert h[..4] == ToBits(4, 3) && h[4..8] == ToBits(4, index) && h[8..12] == ToBits(4, last) && h[12..HEADER_BITS] == ToBits(8, parity);
  }

  /** A reader gets the right index, number and parity, and exactly the part of the message that the symbol holds. */
  lemma PartReads(p: Printed, v: int, level: nat, mask: int, index: nat, last: nat, parity: nat, segs: seq<Segment>)
    requires PartShown(p, v, level, mask, index, last, parity, segs)
    requires index < MAX_SYMBOLS && last < MAX_SYMBOLS && parity < 256
    ensures IsVersion(v) && IsPrinted(p, v) && ReadPart(p, v) == Some(Part(index, last, parity, segs))
  {
    hide *;
    PartShownMeans(p, v, level, mask, index, last, parity, segs);
    var w, n := Widths(v), Capacity(v, level);
    var h, body := Header(index, last, parity), EncodeSegments(w, segs);
    EncodeSegmentsLength(w, segs);
    HeaderFields(index, last, parity);
    var tail := Tail(n - |h + body|);
    TailEndsStream(n - |h + body|);
    SegmentsFit(v, level, segs);
    ReadSegmentsOfEncoded(w, segs, tail);
    Regroup(h, body, tail);
    CompletedIs(h + body, n);
    PartOfBits(w, h, body + tail, segs);
    ReadPartIs(p, v, level, mask, h + (body + tail));
  }

  /** The pieces of the first n symbols, if each says that it is the one that it is, and has the parity given. */
  ghost function ReadPieces(parts: seq<Printed>, v: int, parity: nat, n: nat): Option<seq<Octet>>
    requires IsVersion(v) && n <= |parts|
  {
    if n == 0 then Some([])
    else if !IsPrinted(parts[n - 1], v) then None
    else
      match (ReadPieces(parts, v, parity, n - 1), ReadPart(parts[n - 1], v))
      case (Some(before), Some(part)) =>
        if part.index == n - 1 && part.last == |parts| - 1 && part.parity == parity then Some(before + DataOf(part.segs)) else None
      case _ => None
  }

  /** What a reader makes of all symbols of a message: the pieces in order, if they have the parity that all symbols say. */
  ghost function ReadMessage(parts: seq<Printed>, v: int, parity: nat): Option<seq<Octet>>
    requires IsVersion(v)
  {
    match ReadPieces(parts, v, parity, |parts|)
    case Some(message) => if Parity(0, message) == parity then Some(message) else None
    case None => None
  }

  lemma {:induction false} PiecesRead(parts: seq<Printed>, v: int, level: nat, masks: seq<int>, parity: nat, contents: seq<seq<Segment>>, n: nat)
    requires n <= |parts| == |masks| == |contents| <= MAX_SYMBOLS && IsVersion(v) && parity < 256
    requires forall k :: 0 <= k < |parts| ==> PartShown(parts[k], v, level, masks[k], k, |parts| - 1, parity, contents[k])
    ensures ReadPieces(parts, v, parity, n) == Some(MessageOf(contents[..n]))
  {
    hide PartShown, ReadPart, IsPrinted, DataOf;
    if n > 0 {
      PiecesRead(parts, v, level, masks, parity, contents, n - 1);
      PartReads(parts[n - 1], v, level, masks[n - 1], n - 1, |parts| - 1, parity, contents[n - 1]);
      assert contents[..n][..n - 1] == contents[..n - 1];
    }
  }

  /** Reading all symbols in order and putting their pieces together gives the message. */
  lemma MessageReads(parts: seq<Printed>, v: int, level: nat, masks: seq<int>, contents: seq<seq<Segment>>)
    requires |parts| == |masks| == |contents| <= MAX_SYMBOLS && IsVersion(v)
    requires forall k :: 0 <= k < |parts| ==>
               PartShown(parts[k], v, level, masks[k], k, |parts| - 1, Parity(0, MessageOf(contents)), contents[k])
    ensures ReadMessage(parts, v, Parity(0, MessageOf(contents))) == Some(MessageOf(contents))
  {
    hide PartShown, ReadPieces, Parity, MessageOf;
    PiecesRead(parts, v, level, masks, Parity(0, MessageOf(contents)), contents, |parts|);
    assert contents[..|parts|] == contents;
  }

  lemma CompletedIs(bits: seq<bool>, n: nat)
    requires |bits| <= n
    ensures Completed(bits, n) == bits + Tail(n - |bits|)
  {
  }

  lemma PartShownMeans(p: Printed, v: int, level: nat, mask: int, index: nat, last: nat, parity: nat, segs: seq<Segment>)
    requires PartShown(p, v, level, mask, index, last, parity, segs)
    ensures IsVersion(v) && level < 4 && 0 <= mask < MASKS && AllValid(segs)
    ensures HEADER_BITS + TotalLength(Widths(v), segs) <= Capacity(v, level)
    ensures Shows(p, v, level, mask, Completed(Header(index, last, parity) + EncodeSegments(Widths(v), segs), Capacity(v, level)))
  {
    hide Shows, Completed, TotalLength, Capacity, Header;
  }

  lemma ReadPartIs(p: Printed, v: int, level: nat, mask: nat, bits: seq<bool>)
    requires IsVersion(v) && level < 4 && mask < MASKS && Shows(p, v, level, mask, bits)
    ensures IsPrinted(p, v) && ReadPart(p, v) == ReadPartBits(Widths(v), bits)
  {
    hide ReadPartBits, ReadStream, FormatInfo.ReadFormat, PrintedFormat, FaultFree, Widths;
  }

  lemma SegmentsFit(v: int, level: nat, segs: seq<Segment>)
    requires IsVersion(v) && level < 4 && AllValid(segs) && HEADER_BITS + TotalLength(Widths(v), segs) <= Capacity(v, level)
    ensures forall i :: 0 <= i < |segs| ==> CountFits(Widths(v), segs[i])
  {
    hide TotalLength, Widths, CountFits, LevelOf;
    AllCountsFit(v, level, segs);
  }

  /** Which parameters are taken; the first that is wrong is reported. */
  function InitVerdict(version: int, mode: int, level: int, mask: int, maxnum: int): Outcome {
    if maxnum < 2 || mask > MAX_SYMBOLS then Failed(InvalidCount)
    else if !IsVersion(version) then Failed(InvalidVersion)
    else if mode != -1 && ModeOfNumber(mode) == None then Failed(InvalidMode)
    else if !(0 <= level < 4) then Failed(InvalidLevel)
    else if mask != -1 && !(0 <= mask < MASKS) then Failed(InvalidMask)
    else Ok
  }

  /** From two symbols up, no number of symbols is refused: 17 are taken where 2 are. */
  lemma CountUnbounded(version: int, mode: int, level: int, mask: int, maxnum: int)
    requires maxnum >= 2
    ensures InitVerdict(version, mode, level, mask, maxnum) == InitVerdict(version, mode, level, mask, 2)
    ensures InitVerdict(1, -1, 0, -1, MAX_SYMBOLS + 1) == Ok
  {
  }

  class QrStructured {
    const version: int
    const level: nat
    const mode: int
    const mask: int
    const max: nat
    var qrs: seq<QrCode>
    var parity: Octet
    var state: State

    /** The segments of every symbol, and all that the symbols are made of. */
    ghost var contents: seq<seq<Segment>>
    ghost var repr: set<object>

    ghost predicate Formed()
      reads this`qrs, this`contents, this`repr
    {
      && IsVersion(version) && level < 4 && -1 <= mask < MASKS && max >= 2
      && 1 <= |qrs| <= max && |qrs| <= MAX_SYMBOLS && Apart(qrs) && |contents| == |qrs|
      && this !in repr && InRepr()
    }

    ghost predicate InRepr()
      reads this`qrs, this`repr
    {
      forall k :: 0 <= k < |qrs| ==> qrs[k].Parts() <= repr && qrs[k] in repr && qrs[k].dataword in repr
    }

    ghost predicate AllHolding(n: nat)
      requires n <= |qrs| == |contents| && InRepr()
      reads this`qrs, this`contents, this`repr, repr
    {
      forall k :: 0 <= k < n ==> Holding(qrs[k], version, level, contents[k])
    }

    ghost predicate Valid()
      reads this, repr
    {
      && Formed() && state != Final
      && (if state == Begin then |qrs| == 1 && IsBlank(qrs[0], version, level) && contents == [[]] && parity == 0
          else AllHolding(|qrs|) && parity == Parity(0, MessageOf(contents)))
    }


    constructor (version: int, mode: int, level: nat, mask: int, max: nat)
      requires IsVersion(version) && level < 4 && -1 <= mask < MASKS && max >= 2
      ensures Valid() && state == Begin && fresh(repr)
      ensures this.version == version && this.mode == mode && this.level == level && this.mask == mask && this.max == max
    {
      hide QrCode.Empty, QrCode.Valid, Valid;
      this.version, this.mode, this.level, this.mask, this.max := version, mode, level, mask, max;
      var first := new QrCode(version, mode, level, mask);
      qrs := [first];
      parity := 0;
      state := Begin;
      contents := [[]];
      repr := {first, first.dataword, first.ecword, first.codeword};
      new;
      BlankIsValid();
    }

    lemma BlankIsValid()
      requires IsVersion(version) && level < 4 && -1 <= mask < MASKS && max >= 2 && state == Begin
      requires |qrs| == 1 && qrs[0].Empty() && qrs[0].version == version && qrs[0].level == level
      requires contents == [[]] && parity == 0
      requires this !in repr && InRepr()
      ensures Valid()
    {
      hide QrCode.Empty, InRepr;
    }

    /** The bound on the number of symbols is checked from below only; the upper limit is held against the mask. */
    static method Init(version: int, mode: int, level: int, mask: int, maxnum: int) returns (st: QrStructured?, r: Outcome)
      ensures r == InitVerdict(version, mode, level, mask, maxnum)
      ensures r.Ok? <==> st != null
      ensures st != null ==>
                && fresh(st) && st.Valid() && st.state == Begin && fresh(st.repr)
                && st.version == version && st.mode == mode && st.level == level && st.mask == mask && st.max == maxnum
    {
      st := null;
      if !(maxnum >= 2 && mask <= MAX_SYMBOLS) {
        return null, Failed(InvalidCount);
      }
      if !IsVersion(version) {
        return null, Failed(InvalidVersion);
      }
      if !(mode == -1 || 0 <= mode < 4) {
        return null, Failed(InvalidMode);
      }
      if !(0 <= level < 4) {
        return null, Failed(InvalidLevel);
      }
      if !(mask == -1 || 0 <= mask < MASKS) {
        return null, Failed(InvalidMask);
      }
      st := new QrStructured(version, mode, level, mask, maxnum);
      r := Ok;
    }

    // ---- Adding data ----

    /** Writes one piece into the last symbol. */
    method PutPiece(piece: seq<Octet>, m: Mode) returns (r: Outcome)
      requires Formed() && AllHolding(|qrs| - 1) && LastOpen() && m != Auto && piece != []
      requires EncodedLength(Widths(version), |piece|, m) <= RoomLeft(qrs[|qrs| - 1], version, level)
      modifies this`contents, qrs[|qrs| - 1], qrs[|qrs| - 1].dataword
      ensures r == if Segment(m, piece).Valid() then Ok else Failed(CharError(m))
      ensures qrs == old(qrs) && repr == old(repr)
      ensures r.Ok? ==> Formed() && AllHolding(|qrs|)
      ensures r.Ok? ==> contents == old(contents[|qrs| - 1 := contents[|qrs| - 1] + [Segment(m, piece)]])
    {
      hide *;
      FormedMeans();
      LastMeans();
      var k := |qrs| - 1;
      ghost var s := Segment(m, piece);
      HoldingEach(k);
      label before:
      r := WritePiece(qrs[k], version, level, piece, m, contents[k]);
      if r.Ok? {
        contents := contents[k := contents[k] + [s]];
        forall j | 0 <= j < k ensures Holding(qrs[j], version, level, contents[j]) {
          ApartAt(j, k);
          assert old@before(Holding(qrs[j], version, level, contents[j]));
        }
        HoldingAll(k + 1);
        FormedAgain();
      }
    }

    /** Takes a new symbol for what comes next. */
    method TakeNew()
      requires Formed() && AllHolding(|qrs|) && |qrs| < max && |qrs| < MAX_SYMBOLS
      modifies this`qrs, this`contents, this`repr
      ensures Formed() && AllHolding(|qrs| - 1) && LastOpen()
      ensures contents == old(contents) + [[]] && |qrs| == old(|qrs|) + 1
      ensures LastBlank() && LastRoom() == Capacity(version, level) - HEADER_BITS
      ensures repr >= old(repr) && fresh(repr - old(repr))
    {
      hide *;
      FormedMeans();
      HoldingEach(|qrs|);
      label before:
      var next := new QrCode(version, mode, level, mask);
      ghost var had := repr;
      qrs := qrs + [next];
      contents := contents + [[]];
      repr := repr + {next, next.dataword, next.ecword, next.codeword};
      ghost var k := |qrs| - 1;
      NewSymbol(old(qrs), had, next);
      forall j | 0 <= j < k ensures Holding(qrs[j], version, level, contents[j]) {
        assert old@before(Holding(qrs[j], version, level, contents[j]));
      }
      HoldingAll(k);
      FormedAgain();
      BlankRoom();
    }

    lemma RoomIfBlank()
      requires Formed()
      ensures LastBlank() ==> LastRoom() == Capacity(version, level) - HEADER_BITS
    {
    }

    lemma BlankRoom()
      requires Formed() && qrs[|qrs| - 1].state == Begin
      ensures LastBlank() && LastRoom() == Capacity(version, level) - HEADER_BITS
    {
    }

    lemma NewSymbol(before: seq<QrCode>, had: set<object>, next: QrCode)
      requires qrs == before + [next] && |contents| == |qrs| && contents[|qrs| - 1] == [] && Apart(before)
      requires repr == had + {next, next.dataword, next.ecword, next.codeword}
      requires forall k :: 0 <= k < |before| ==> before[k].Parts() <= had && before[k] in had && before[k].dataword in had
      requires next !in had && next.dataword !in had && next.ecword !in had && next.codeword !in had
      requires next.Empty() && next.version == version && next.level == level
      ensures Apart(qrs) && InRepr() && LastOpen() && next.state == Begin
    {
    }

    /** All symbols but the last hold their parts, the last is open, and this is the message so far. */
    ghost predicate Placing(message: seq<Octet>)
      reads this`qrs, this`contents, this`repr, repr
    {
      Formed() && AllHolding(|qrs| - 1) && LastOpen() && MessageOf(contents) == message
    }

    /** Room in the last symbol. */
    ghost function LastRoom(): int
      requires Formed()
      reads this`qrs, this`contents, this`repr, repr
    {
      RoomLeft(qrs[|qrs| - 1], version, level)
    }

    ghost predicate LastBlank()
      requires Formed()
      reads this`qrs, this`contents, this`repr, repr
    {
      qrs[|qrs| - 1].state == Begin
    }

    method PutPieces(data: seq<Octet>, m: Mode, sizes: seq<nat>) returns (r: Outcome)
      requires Valid() && m != Auto && data != [] && Sum(sizes) == |data|
      requires |qrs| + |sizes| - 1 <= max && |qrs| + |sizes| - 1 <= MAX_SYMBOLS
      requires Placeable(Widths(version), m, sizes, LastRoom(), Capacity(version, level) - HEADER_BITS, LastBlank())
      modifies this`qrs, this`contents, this`repr, this`state, repr
      ensures r == if Segment(m, data).Valid() then Ok else Failed(CharError(m))
      ensures r.Ok? ==>
                && Formed() && AllHolding(|qrs|) && state == Set
                && MessageOf(contents) == MessageOf(old(contents)) + data
                && |qrs| == old(|qrs|) + |sizes| - 1
      ensures repr >= old(repr) && fresh(repr - old(repr))
    {
      hide *;
      ValidIsPlacing();
      FormedMeans();
      ghost var message, w, limit := MessageOf(contents), Widths(version), Capacity(version, level) - HEADER_BITS;
      ghost var remain, blank, n := LastRoom(), LastBlank(), |qrs|;
      var p, i := 0, 0;
      StartPieces(data, sizes, message);
      PiecesNotEmpty(w, m, sizes, remain, limit, blank);
      while i < |sizes|
        invariant 0 <= i <= |sizes| && p == Offset(sizes, i) && p <= |data|
        invariant Placing(message + data[..p]) && Formed() && |qrs| == |contents| && InRepr()
        invariant i == |sizes| ==> AllHolding(|qrs|)
        invariant |qrs| == n + (if i < |sizes| then i else i - 1)
        invariant i < |sizes| ==> LastRoom() == (if i == 0 then remain else limit) && LastBlank() == (i > 0 || blank)
        invariant p > 0 ==> Segment(m, data[..p]).Valid() && state == Set
        invariant repr >= old(repr) && fresh(repr - old(repr))
      {
        OffsetNext(sizes, i);
        PieceIsPlaceable(w, m, sizes, remain, limit, blank, i);
        PlacingMeans(message + data[..p]);
        if sizes[i] != 0 {
          PieceOf(m, data, p, sizes[i]);
          Regroup(message, data[..p], data[p..p + sizes[i]]);
          r := PutNext(data[p..p + sizes[i]], m, message + data[..p]);
          if r != Ok {
            return;
          }
          FormedMeans();
          p := p + sizes[i];
        }
        i := i + 1;
        if i < |sizes| && sizes[i] > 0 {
          MessageWithEmpty(contents);
          TakeNew();
          FormedMeans();
          PlacingIs(message + data[..p]);
        }
      }
      AllPlaced(sizes, data);
      PlacingMeans(message + data[..p]);
      r := Ok;
    }

    /** Writes one more piece of a message. */
    method PutNext(piece: seq<Octet>, m: Mode, ghost message: seq<Octet>) returns (r: Outcome)
      requires Formed() && Placing(message) && m != Auto && piece != []
      requires EncodedLength(Widths(version), |piece|, m) <= LastRoom()
      modifies this`contents, this`state, repr
      ensures r == if Segment(m, piece).Valid() then Ok else Failed(CharError(m))
      ensures qrs == old(qrs) && repr == old(repr)
      ensures r.Ok? ==> Formed() && AllHolding(|qrs|) && Placing(message + piece) && !LastBlank() && state == Set
      ensures r.Ok? ==> |qrs| == |contents| && MessageOf(contents) == message + piece
    {
      hide *;
      FormedMeans();
      PlacingMeans(message);
      ghost var before := contents;
      r := PutPiece(piece, m);
      if r.Ok? {
        StillPlacing();
        MessageGrows(before, Segment(m, piece));
        state := Set;
      }
    }

    lemma StillPlacing()
      requires Formed() && AllHolding(|qrs|)
      ensures AllHolding(|qrs| - 1) && LastOpen() && !LastBlank() && Placing(MessageOf(contents))
    {
      hide QrCode.Ready;
    }

    lemma PlacingIs(message: seq<Octet>)
      requires Formed() && AllHolding(|qrs| - 1) && LastOpen() && MessageOf(contents) == message
      ensures Placing(message)
    {
    }

    lemma ValidIsPlacing()
      requires Valid()
      ensures Formed() && Placing(MessageOf(contents)) && parity == Parity(0, MessageOf(contents))
    {
      hide Holding, IsBlank, Apart;
    }

    lemma PlacingMeans(message: seq<Octet>)
      requires Placing(message)
      ensures 1 <= |qrs| == |contents| && InRepr() && IsVersion(version) && level < 4
      ensures AllHolding(|qrs| - 1) && LastOpen() && MessageOf(contents) == message
      ensures LastRoom() == RoomLeft(qrs[|qrs| - 1], version, level)
      ensures !LastBlank() ==> AllHolding(|qrs|)
      ensures contents != [] && qrs[|qrs| - 1] in repr && qrs[|qrs| - 1].dataword in repr
    {
      hide Holding, Apart;
      assert !LastBlank() ==> Holding(qrs[|qrs| - 1], version, level, contents[|qrs| - 1]);
    }

    /**
     The symbols stay within their table, which has 16 places: the bound on their number does, or the data need no new symbol,
     or no more than there are places for. Nothing else keeps the source within it.
     */
    ghost predicate StaysInTable(data: seq<Octet>, number: int)
      requires Formed()
      reads this`qrs, this`contents, this`repr, repr
    {
      RequestedMode(number, data).Some? ==>
        var m, w := RequestedMode(number, data).value, Widths(version);
        || max <= MAX_SYMBOLS || EncodedLength(w, |data|, m) <= LastRoom()
        || |data| <= TotalRoom(w, m, LastRoom(), Capacity(version, level) - HEADER_BITS, MAX_SYMBOLS - |qrs| + 1)
    }

    /** Cuts the data into pieces, fills the last symbol, and takes new ones for the rest, no more than needed. */
    method AddDataAs(data: seq<Octet>, number: int) returns (r: Outcome)
      requires state == Final || (Valid() && StaysInTable(data, number))
      modifies this, repr
      ensures old(state) == Final ==> r == Failed(WrongState)
      ensures old(state) != Final && data == [] ==> r == Failed(EmptySource)
      ensures old(state) != Final && data != [] && RequestedMode(number, data) == None ==> r == Failed(InvalidMode)
      ensures old(state) != Final && data != [] && RequestedMode(number, data).Some? ==>
                r == SplitVerdict(Widths(version), RequestedMode(number, data).value, data, old(LastRoom()),
                                  Capacity(version, level) - HEADER_BITS, max - old(|qrs|) + 1)
      ensures r.Ok? ==>
                && Valid() && state == Set && MessageOf(contents) == MessageOf(old(contents)) + data
                && IsParityOf(parity, MessageOf(contents)) && |qrs| >= old(|qrs|) && RequestedMode(number, data).Some?
                && TotalRoom(Widths(version), RequestedMode(number, data).value, old(LastRoom()),
                             Capacity(version, level) - HEADER_BITS, |qrs| - old(|qrs|)) < |data|
      ensures !IsCharError(r) && old(state) != Final ==> Valid()
      ensures !r.Ok? && !IsCharError(r) ==> qrs == old(qrs) && contents == old(contents) && parity == old(parity) && state == old(state)
      ensures repr >= old(repr) && fresh(repr - old(repr))
    {
      hide *;
      if state == Final {
        return Failed(WrongState);
      }
      ValidIsPlacing();
      FormedMeans();
      if data == [] {
        return Failed(EmptySource);
      }
      var m := Auto;
      if number == -1 {
        m := DetectDataType(data);
      } else {
        var known := ModeOfNumber(number);
        if known == None {
          UnknownMode(number, data);
          return Failed(InvalidMode);
        }
        m := known.value;
      }
      RequestedIs(number, data, m);
      TableMeans(data, number, m);
      ghost var w, limit, n := Widths(version), Capacity(version, level) - HEADER_BITS, max - |qrs| + 1;
      VerdictIs(w, m, data, LastRoom(), limit, n);
      var ok, sizes := PiecesOf(data, m);
      if !ok {
        return Failed(TooLarge);
      }
      r := PutPieces(data, m, sizes);
      if r == Ok {
        ghost var message := MessageOf(old(contents));
        ParityOfBoth(0, message, data);
        AddParity(data);
        AddedIsValid();
        ParityMeans(MessageOf(contents));
      }
    }

    method AddParity(data: seq<Octet>)
      modifies this`parity
      ensures parity == Parity(old(parity), data)
    {
      hide XorOctet;
      var p := 0;
      while p < |data|
        invariant p <= |data| && parity == Parity(old(parity), data[..p])
      {
        parity := XorOctet(parity, data[p]);
        p := p + 1;
        assert data[..p][..p - 1] == data[..p - 1];
      }
      assert data[..p] == data;
    }

    /** The sizes of the pieces, if there is room for all of them. */
    method PiecesOf(data: seq<Octet>, m: Mode) returns (ok: bool, sizes: seq<nat>)
      requires Valid() && m != Auto && data != [] && Formed()
      requires
        || max <= MAX_SYMBOLS || EncodedLength(Widths(version), |data|, m) <= LastRoom()
        || |data| <= TotalRoom(Widths(version), m, LastRoom(), Capacity(version, level) - HEADER_BITS, MAX_SYMBOLS - |qrs| + 1)
      ensures ok <==>
                || EncodedLength(Widths(version), |data|, m) <= LastRoom()
                || |data| <= TotalRoom(Widths(version), m, LastRoom(), Capacity(version, level) - HEADER_BITS, max - |qrs| + 1)
      ensures ok ==>
                && Placeable(Widths(version), m, sizes, LastRoom(), Capacity(version, level) - HEADER_BITS, LastBlank())
                && Sum(sizes) == |data| && sizes != [] && |qrs| + |sizes| - 1 <= max && |qrs| + |sizes| - 1 <= MAX_SYMBOLS
                && TotalRoom(Widths(version), m, LastRoom(), Capacity(version, level) - HEADER_BITS, |sizes| - 1) < |data|
    {
      hide *;
      ValidIsPlacing();
      FormedMeans();
      PlacingMeans(MessageOf(contents));
      RoomIfBlank();
      var limit := Capacity(version, level) - HEADER_BITS;
      var remain := RoomLeft(qrs[|qrs| - 1], version, level);
      var w := Widths(version);
      ok, sizes := true, [|data|];
      if EncodedLength(w, |data|, m) > remain {
        ok, sizes := Cut(w, m, |data|, remain, limit, max - |qrs| + 1);
        if !ok {
          return;
        }
      }
      LimitHasRoom(version, level, m);
      PiecesInTable(w, m, |data|, remain, limit, sizes, MAX_SYMBOLS - |qrs|);
      CutIsPlaceable(w, m, data, remain, limit, max - |qrs| + 1, sizes, LastBlank());
    }

    lemma TableMeans(data: seq<Octet>, number: int, m: Mode)
      requires Formed() && StaysInTable(data, number) && RequestedMode(number, data) == Some(m)
      ensures
        || max <= MAX_SYMBOLS || EncodedLength(Widths(version), |data|, m) <= LastRoom()
        || |data| <= TotalRoom(Widths(version), m, LastRoom(), Capacity(version, level) - HEADER_BITS, MAX_SYMBOLS - |qrs| + 1)
    {
      hide EncodedLength, TotalRoom, Capacity, Widths, RequestedMode, Formed;
    }

    /** Writes the headers and completes every symbol; then a reader of all of them gets the message. */
    method Finalize() returns (ok: bool, ghost parts: seq<Printed>)
      requires state == Final || Valid()
      modifies this`state, repr
      ensures ok <==> old(state) != Begin
      ensures old(state) != Set ==> state == old(state)
      ensures old(state) == Set ==>
                && state == Final && 1 <= |qrs| <= max && |qrs| <= MAX_SYMBOLS && |contents| == |qrs|
                && parity == Parity(0, MessageOf(contents)) && IsParityOf(parity, MessageOf(contents))
                && forall k :: 0 <= k < |qrs| ==> Done(qrs[k], version, level, k, |qrs| - 1, parity, contents[k])
      ensures old(state) == Set ==>
                && |parts| == |qrs| && (forall k :: 0 <= k < |qrs| ==> parts[k] == Colours(qrs[k].symbol[..]))
                && IsVersion(version) && ReadMessage(parts, version, parity) == Some(MessageOf(contents))
    {
      hide *;
      parts := [];
      if state == Begin {
        return false, parts;
      }
      if state == Final {
        return true, parts;
      }
      SetMeans();
      FormedMeans();
      FinishParts();
      state := Final;
      ok := true;
      parts := AllRead();
      ParityMeans(MessageOf(contents));
    }

    /** Writes the header of every symbol and completes it. */
    method FinishParts()
      requires Formed() && |qrs| == |contents| && InRepr() && AllHolding(|qrs|)
      modifies repr
      ensures forall k :: 0 <= k < |qrs| ==> Done(qrs[k], version, level, k, |qrs| - 1, parity, contents[k])
    {
      hide *;
      FormedMeans();
      HoldingEach(|qrs|);
      var n := |qrs| - 1;
      for k := 0 to |qrs|
        invariant forall j :: 0 <= j < k ==> fresh(qrs[j].symbol) && Done(qrs[j], version, level, j, n, parity, contents[j])
        invariant forall j :: k <= j < |qrs| ==> Holding(qrs[j], version, level, contents[j])
      {
        AllApart(k);
        FinishPart(qrs[k], version, level, k, n, parity, contents[k]);
      }
    }

    /** What a reader of all finished symbols gets. */
    lemma AllRead() returns (parts: seq<Printed>)
      requires IsVersion(version) && 1 <= |qrs| == |contents| <= MAX_SYMBOLS && parity == Parity(0, MessageOf(contents))
      requires forall k :: 0 <= k < |qrs| ==> Done(qrs[k], version, level, k, |qrs| - 1, parity, contents[k])
      ensures |parts| == |qrs| && forall k :: 0 <= k < |qrs| ==> parts[k] == Colours(qrs[k].symbol[..])
      ensures ReadMessage(parts, version, parity) == Some(MessageOf(contents))
    {
      hide *;
      parts := seq(|qrs|, k requires 0 <= k < |qrs| reads this`qrs, qrs, set q | q in qrs :: q.symbol => Colours(qrs[k].symbol[..]));
      var masks := seq(|qrs|, k requires 0 <= k < |qrs| reads this`qrs, qrs => qrs[k].mask);
      forall k | 0 <= k < |qrs| ensures PartShown(parts[k], version, level, masks[k], k, |qrs| - 1, parity, contents[k]) {
        DoneMeans(qrs[k], version, level, k, |qrs| - 1, parity, contents[k]);
      }
      MessageReads(parts, version, level, masks, contents);
    }

    lemma SetMeans()
      requires Valid() && state == Set
      ensures Formed() && |qrs| == |contents| && InRepr() && AllHolding(|qrs|) && parity == Parity(0, MessageOf(contents))
    {
    }

    lemma AllApart(k: nat)
      requires Apart(qrs) && InRepr() && k < |qrs|
      ensures qrs[k].Parts() <= repr
      ensures qrs[k] in repr && qrs[k].dataword in repr && qrs[k].ecword in repr && qrs[k].codeword in repr
      ensures forall j :: 0 <= j < |qrs| && j != k ==>
                && qrs[j] != qrs[k] && qrs[j].dataword != qrs[k].dataword && qrs[j].dataword != qrs[k].ecword
                && qrs[j].dataword != qrs[k].codeword
    {
      forall j | 0 <= j < |qrs| && j != k ensures qrs[j].Parts() !! qrs[k].Parts() {
        assert j < k || k < j;
      }
      forall j | 0 <= j < |qrs| && j != k
        ensures qrs[j] != qrs[k] && qrs[j].dataword != qrs[k].dataword && qrs[j].dataword != qrs[k].ecword
                && qrs[j].dataword != qrs[k].codeword
      {
        assert qrs[j] in qrs[j].Parts() && qrs[j].dataword in qrs[j].Parts();
      }
    }

    lemma AddedIsValid()
      requires Formed() && AllHolding(|qrs|) && state == Set && parity == Parity(0, MessageOf(contents))
      ensures Valid()
    {
    }

    lemma FormedMeans()
      requires Formed()
      ensures IsVersion(version) && level < 4 && -1 <= mask < MASKS && max >= 2
      ensures 1 <= |qrs| == |contents| <= max && |qrs| <= MAX_SYMBOLS && Apart(qrs) && this !in repr && InRepr()
      ensures forall k :: 0 <= k < |qrs| ==> qrs[k].Parts() <= repr && qrs[k] in repr && qrs[k].dataword in repr
    {
    }

    lemma FormedAgain()
      requires IsVersion(version) && level < 4 && -1 <= mask < MASKS && max >= 2
      requires 1 <= |qrs| == |contents| <= max && |qrs| <= MAX_SYMBOLS && Apart(qrs) && this !in repr && InRepr()
      ensures Formed()
    {
    }

    lemma ApartAt(i: nat, j: nat)
      requires Apart(qrs) && i < j < |qrs|
      ensures qrs[i] != qrs[j] && qrs[i].dataword != qrs[j].dataword
    {
      assert qrs[i].Parts() !! qrs[j].Parts();
      assert qrs[i] in qrs[i].Parts() && qrs[i].dataword in qrs[i].Parts();
    }

    lemma HoldingEach(n: nat)
      requires n <= |qrs| == |contents| && InRepr() && AllHolding(n)
      ensures forall k :: 0 <= k < n ==> Holding(qrs[k], version, level, contents[k])
    {
    }

    lemma HoldingAll(n: nat)
      requires n <= |qrs| == |contents| && InRepr()
      requires forall k :: 0 <= k < n ==> Holding(qrs[k], version, level, contents[k])
      ensures AllHolding(n)
    {
    }

    lemma LastMeans()
      requires |qrs| == |contents| > 0 && InRepr() && LastOpen()
      ensures IsOpen(qrs[|qrs| - 1], version, level, contents[|qrs| - 1])
    {
    }

    /** The last symbol is blank, or holds its part of the message. */
    ghost predicate LastOpen()
      requires |qrs| == |contents| > 0 && InRepr()
      reads this`qrs, this`contents, this`repr, repr
    {
      IsOpen(qrs[|qrs| - 1], version, level, contents[|qrs| - 1])
    }
  }
}
