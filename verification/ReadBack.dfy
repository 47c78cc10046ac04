/** A completed stream says what was written into it, exactly when it had room for all of it. */
module ReadBack {
  import opened Arithmetic
  import opened Bits
  import opened Options
  import opened Segments
  import opened VersionTable
  import opened VersionChoice
  import opened DataStream
  import opened FormatInfo
  import opened SymbolReader

  /** The stream as it ends up in a symbol with room for n bits. */
  function Completed(bits: seq<bool>, n: nat): (r: seq<bool>)
    ensures |r| == n
  {
    if |bits| <= n then bits + Tail(n - |bits|) else bits[..n]
  }

  // ---- What the words hold behind the stream ----

  /** The first word behind a stream of so many bits and its terminator. */
  function FirstPad(size: nat): nat {
    (size + 11) / 8
  }

  /** Nothing but zeros up to the first pad word, and from there 0xec and 0x11 in turn. */
  predicate IsPadded(data: seq<bv8>, size: nat) {
    && (forall i :: size <= i < 8 * FirstPad(size) && i < 8 * |data| ==> !BitStream(data)[i])
    && (forall k :: FirstPad(size) <= k < |data| ==> data[k] == if (k - FirstPad(size)) % 2 == 0 then 0xec else 0x11)
  }

  lemma CompletedIsPadded(data: seq<bv8>, bits: seq<bool>)
    requires BitStream(data) == Completed(bits, 8 * |data|)
    ensures IsPadded(data, |bits|)
  {
    hide *;
    var first := FirstPad(|bits|);
    forall i | |bits| <= i < 8 * first && i < 8 * |data| ensures !BitStream(data)[i] {
      FillBit(bits, |data|, i);
    }
    forall k | first <= k < |data| ensures data[k] == if (k - first) % 2 == 0 then 0xec else 0x11 {
      PackEightBits(data, k);
      WordBehind(|bits|, k);
      PadsBegin(|bits|, |data|);
      PadWordAt(bits, |data|, first, k);
      PadBytes((k - first) % 2 == 0);
    }
    PaddedIs(data, |bits|);
  }

  lemma PaddedIs(data: seq<bv8>, size: nat)
    requires forall i :: size <= i < 8 * FirstPad(size) && i < 8 * |data| ==> !BitStream(data)[i]
    requires forall k :: FirstPad(size) <= k < |data| ==> data[k] == if (k - FirstPad(size)) % 2 == 0 then 0xec else 0x11
    ensures IsPadded(data, size)
  {
  }

  /** From the terminator on the pad words begin at the next whole word. */
  lemma PadsBegin(size: nat, words: nat)
    requires size <= 8 * words
    ensures var first, n := FirstPad(size), 8 * words - size;
            && 4 <= 8 * first - size < 12
            && (n >= 4 ==> first <= words && 8 * first - size == 4 + (n - 4) % 8)
            && (n < 4 ==> first > words)
  {
    var first, n := FirstPad(size), 8 * words - size;
    if n >= 4 {
      RemainderPlus(8, words - first, 8 * first - size - 4);
    }
  }

  lemma WordBehind(size: nat, k: nat)
    requires FirstPad(size) <= k
    ensures size <= 8 * k
  {
  }

  lemma FillBit(bits: seq<bool>, words: nat, i: nat)
    requires |bits| <= i < 8 * words && i < 8 * FirstPad(|bits|)
    ensures !Completed(bits, 8 * words)[i]
  {
    hide FirstPad, Tail;
    PadsBegin(|bits|, words);
    TailZeros(8 * words - |bits|, i - |bits|);
  }

  lemma PadWordAt(bits: seq<bool>, words: nat, first: nat, k: nat)
    requires first <= k < words && 4 <= 8 * first - |bits| == 4 + (8 * words - |bits| - 4) % 8
    ensures Completed(bits, 8 * words)[8 * k..8 * k + 8] == ToBits(8, PadWord((k - first) % 2 == 0))
  {
    hide *;
    TailPads(8 * words - |bits|, 8 * first - |bits|, k - first);
    CompletedBehind(bits, 8 * words, 8 * k, 8 * k + 8);
  }

  lemma CompletedBehind(bits: seq<bool>, n: nat, lo: nat, hi: nat)
    requires |bits| <= lo <= hi <= n
    ensures Completed(bits, n)[lo..hi] == Tail(n - |bits|)[lo - |bits|..hi - |bits|]
  {
    hide Tail;
  }

  lemma TailZeros(n: nat, i: nat)
    requires i < n && (i < 4 || i < 4 + (n - 4) % 8)
    ensures !Tail(n)[i]
  {
    hide Padding;
  }

  lemma TailPads(n: nat, start: nat, k: nat)
    requires n >= 4 && start == 4 + (n - 4) % 8 && start + 8 * k + 8 <= n
    ensures Tail(n)[start + 8 * k..start + 8 * k + 8] == ToBits(8, PadWord(k % 2 == 0))
  {
    hide Padding, ToBits, PadWord;
    var words := (n - 4) / 8;
    var pads := Padding(words, true);
    assert Tail(n) == Zeros(start) + pads;
    assert Tail(n)[start + 8 * k..start + 8 * k + 8] == pads[8 * k..8 * k + 8];
    PadAt(words, true, k);
  }

  lemma {:induction false} PadAt(n: nat, first: bool, k: nat)
    requires k < n
    ensures Padding(n, first)[8 * k..8 * k + 8] == ToBits(8, PadWord((k % 2 == 0) == first))
  {
    hide ToBits, PadWord;
    var head, rest := ToBits(8, PadWord(first)), Padding(n - 1, !first);
    assert Padding(n, first) == head + rest;
    if k > 0 {
      PadAt(n - 1, !first, k - 1);
      assert (head + rest)[8 * k..8 * k + 8] == rest[8 * (k - 1)..8 * (k - 1) + 8];
    } else {
      assert (head + rest)[0..8] == head;
    }
  }

  lemma PadBytes(first: bool)
    ensures PackByte(ToBits(8, PadWord(first))) == if first then 0xec else 0x11
  {
    assert ToBits(8, 0xec) == [true, true, true, false, true, true, false, false];
    assert ToBits(8, 0x11) == [false, false, false, true, false, false, false, true];
  }

  // ---- Reading takes as many bits as writing ----

  lemma {:induction false} GroupCharsCount(m: Mode, k: nat, v: nat)
    requires Writable(m) && GroupChars(m, k, v).Some?
    ensures |GroupChars(m, k, v).value| == k
  {
    if k > 0 {
      GroupCharsCount(m, k - 1, v / Radix(m));
    }
  }

  lemma DataLengthOfGroup(m: Mode, count: nat)
    requires Writable(m)
    ensures count <= GroupSize(m) ==> DataLength(m, count) == GroupWidth(m, count)
    ensures count > GroupSize(m) ==> DataLength(m, count) == GroupWidth(m, GroupSize(m)) + DataLength(m, count - GroupSize(m))
  {
  }

  lemma {:induction false} ReadCharsTakes(m: Mode, count: nat, bits: seq<bool>)
    requires Writable(m) && ReadChars(m, count, bits).Read?
    ensures |ReadChars(m, count, bits).value| == count
    ensures |ReadChars(m, count, bits).rest| == |bits| - DataLength(m, count)
    decreases count
  {
    hide FromBits, GroupChars, GroupWidth, DataLength;
    var k := if count <= GroupSize(m) then count else GroupSize(m);
    var n := GroupWidth(m, k);
    GroupCharsCount(m, k, FromBits(bits[..n]));
    DataLengthOfGroup(m, count);
    if k < count {
      ReadCharsTakes(m, count - k, bits[n..]);
    }
  }

  lemma ReadSegmentTakes(w: CountWidths, bits: seq<bool>)
    requires ReadSegment(w, bits).Read?
    ensures var s := ReadSegment(w, bits).value;
            s.mode != Auto && |ReadSegment(w, bits).rest| == |bits| - EncodedLength(w, |s.data|, s.mode)
  {
    hide FromBits, ReadChars, DataLength;
    var m := ModeOfId(FromBits(bits[..4])).value;
    ReadCharsTakes(m, FromBits(bits[4..4 + w.Of(m)]), bits[4 + w.Of(m)..]);
  }

  lemma {:induction false} TotalLengthCons(w: CountWidths, segs: seq<Segment>)
    requires AllStorable(segs) && segs != []
    ensures TotalLength(w, segs) == EncodedLength(w, |segs[0].data|, segs[0].mode) + TotalLength(w, segs[1..])
  {
    if |segs| == 1 {
      assert segs[..0] == [] && segs[1..] == [];
    } else {
      TotalLengthCons(w, segs[..|segs| - 1]);
      var rest := segs[1..];
      assert rest[..|rest| - 1] == segs[..|segs| - 1][1..];
    }
  }

  /** A reader that gets segs has at least their total length before it. */
  lemma {:induction false} ReadingNeedsRoom(w: CountWidths, bits: seq<bool>, segs: seq<Segment>)
    requires AllStorable(segs) && ReadSegments(w, bits) == Some(segs)
    ensures TotalLength(w, segs) <= |bits|
    decreases |bits|
  {
    if segs != [] {
      hide ReadSegment, EncodedLength, TotalLength;
      ReadSegmentTakes(w, bits);
      ReadingNeedsRoom(w, ReadSegment(w, bits).rest, segs[1..]);
      TotalLengthCons(w, segs);
    } else {
      assert TotalLength(w, segs) == 0;
    }
  }

  // ---- Completed streams ----

  lemma CompletedReads(v: int, level: nat, segs: seq<Segment>)
    requires IsVersion(v) && level < 4 && AllValid(segs)
    ensures ReadSegments(Widths(v), Completed(EncodeSegments(Widths(v), segs), Capacity(v, level))) == Some(segs)
            <==> Fits(v, segs, level)
  {
    hide ReadSegments, EncodeSegments, TotalLength, Widths, LevelOf, Tail;
    var w := Widths(v);
    EncodeSegmentsLength(w, segs);
    if Fits(v, segs, level) {
      TailEndsStream(Capacity(v, level) - TotalLength(w, segs));
      AllCountsFit(v, level, segs);
      ReadSegmentsOfEncoded(w, segs, Tail(Capacity(v, level) - TotalLength(w, segs)));
    } else if ReadSegments(w, Completed(EncodeSegments(w, segs), Capacity(v, level))) == Some(segs) {
      ReadingNeedsRoom(w, Completed(EncodeSegments(w, segs), Capacity(v, level)), segs);
    }
  }

  lemma AllCountsFit(v: int, level: nat, segs: seq<Segment>)
    requires IsVersion(v) && level < 4 && AllValid(segs) && Fits(v, segs, level)
    ensures forall i :: 0 <= i < |segs| ==> CountFits(Widths(v), segs[i])
  {
    hide TotalLength, Widths, CountFits, LevelOf;
    forall i | 0 <= i < |segs| ensures CountFits(Widths(v), segs[i]) {
      SegmentWithinTotal(Widths(v), segs, i);
      FittingCountFits(v, level, segs[i]);
    }
  }

  /**
   The whole way back: a reader that sees only the colours of the modules gets exactly the segments that were added, if
   and only if the symbol had room for them.
   */
  lemma SymbolReads(p: Printed, v: int, level: nat, mask: nat, segs: seq<Segment>)
    requires IsVersion(v) && level < 4 && mask < 8 && AllValid(segs)
    requires Shows(p, v, level, mask, Completed(EncodeSegments(Widths(v), segs), Capacity(v, level)))
    ensures IsPrinted(p, v) && (ReadSymbol(p, v) == Some(segs) <==> Fits(v, segs, level))
  {
    hide ReadSegments, EncodeSegments, TotalLength, Widths, LevelOf, ReadStream, ReadFormat, PrintedFormat, FaultFree, Completed, Capacity;
    CompletedReads(v, level, segs);
  }
}
