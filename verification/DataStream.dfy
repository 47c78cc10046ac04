/** The data words as a bit stream that is filled from the front, and how a stream is brought to its full length. */
module DataStream {
  import opened Bits
  import opened Segments

  /** The bits are in the first words of the buffer, and nothing but zeros follows. */
  ghost predicate Written(data: seq<bv8>, bits: seq<bool>) {
    && |bits| <= 8 * |data|
    && forall i :: 0 <= i < 8 * |data| ==> BitStream(data)[i] == (i < |bits| && bits[i])
  }

  /** Position of the next bit, from the byte position and the bit number within the byte. */
  function CursorOf(dwpos: int, dwbit: int): int {
    8 * dwpos + 7 - dwbit
  }

  /** A cursor whose two parts have been exchanged is still where it was only when they were equal. */
  lemma ExchangedCursor(dwpos: int, dwbit: int)
    ensures CursorOf(dwbit, dwpos) == CursorOf(dwpos, dwbit) <==> dwpos == dwbit
  {
  }

  /** When the very first write fails, the next one begins at bit 63. */
  lemma FirstFailureMoves()
    ensures CursorOf(0, 7) == 0 && CursorOf(7, 0) == 63
  {
  }

  /** `data[pos] |= bit << k` */
  function OrInto(data: seq<bv8>, pos: nat, k: nat, bit: bool): (r: seq<bv8>)
    requires pos < |data| && k < 8
    ensures |r| == |data|
  {
    if bit then data[pos := data[pos] | BitMask(k)] else data
  }

  lemma OrIntoBits(data: seq<bv8>, pos: nat, k: nat, bit: bool, i: nat)
    requires pos < |data| && k < 8 && i < 8 * |data|
    ensures BitStream(OrInto(data, pos, k, bit))[i] == (BitStream(data)[i] || (bit && i == CursorOf(pos, k)))
  {
    hide HasBit;
    if bit && i / 8 == pos {
      OrBit(data[pos], k, 7 - i % 8);
    }
  }

  /** After k of the low n bits of word, highest first, have been ORed in from position c on. */
  ghost predicate OredSoFar(before: seq<bv8>, now: seq<bv8>, c: nat, n: nat, word: nat, k: nat) {
    && |now| == |before| && k <= n && c + n <= 8 * |before|
    && forall i :: 0 <= i < 8 * |before| ==>
         BitStream(now)[i] == (BitStream(before)[i] || (c <= i < c + k && BitOf(word, n - 1 - (i - c))))
  }

  /** What writing the low n bits of word at position c does: it ORs them in. */
  ghost predicate BitsOred(before: seq<bv8>, after: seq<bv8>, c: nat, n: nat, word: nat) {
    OredSoFar(before, after, c, n, word, n)
  }

  lemma NothingOredYet(before: seq<bv8>, c: nat, n: nat, word: nat)
    requires c + n <= 8 * |before|
    ensures OredSoFar(before, before, c, n, word, 0)
  {
    hide BitStream, BitOf;
  }

  /** The highest bits first: one more bit of the word. */
  lemma OneMoreBit(before: seq<bv8>, now: seq<bv8>, c: nat, n: nat, word: nat, k: nat, pos: nat, bit: nat)
    requires OredSoFar(before, now, c, n, word, k) && k < n
    requires pos < |now| && bit < 8 && CursorOf(pos, bit) == c + k
    ensures OredSoFar(before, OrInto(now, pos, bit, BitOf(word, n - 1 - k)), c, n, word, k + 1)
  {
    hide OrInto, BitStream, BitOf;
    forall i | 0 <= i < 8 * |before|
      ensures BitStream(OrInto(now, pos, bit, BitOf(word, n - 1 - k)))[i] ==
              (BitStream(before)[i] || (c <= i < c + k + 1 && BitOf(word, n - 1 - (i - c))))
    {
      OrIntoBits(now, pos, bit, BitOf(word, n - 1 - k), i);
    }
  }

  /** Writing at the end of a stream appends. */
  lemma OredAppends(before: seq<bv8>, after: seq<bv8>, bits: seq<bool>, n: nat, word: nat)
    requires Written(before, bits) && BitsOred(before, after, |bits|, n, word)
    ensures Written(after, bits + ToBits(n, word))
  {
    hide BitStream, BitOf, ToBits;
    forall i | 0 <= i < 8 * |after|
      ensures BitStream(after)[i] == (i < |bits| + n && (bits + ToBits(n, word))[i])
    {
      if |bits| <= i < |bits| + n {
        ToBitsAt(n, word, i - |bits|);
      }
    }
  }

  lemma ZeroBufferIsEmpty(data: seq<bv8>)
    requires forall i :: 0 <= i < |data| ==> data[i] == 0
    ensures Written(data, [])
  {
    assert HasBit(0, 0) == HasBit(0, 1) == HasBit(0, 2) == HasBit(0, 3) == false;
    assert HasBit(0, 4) == HasBit(0, 5) == HasBit(0, 6) == HasBit(0, 7) == false;
    forall i | 0 <= i < 8 * |data| ensures !BitStream(data)[i] {
      assert data[i / 8] == 0;
    }
  }

  /** Writing over zeros at the start replaces them and disturbs nothing after them. */
  lemma OredReplacesZeros(before: seq<bv8>, after: seq<bv8>, bits: seq<bool>, c: nat, n: nat, word: nat)
    requires Written(before, bits) && BitsOred(before, after, c, n, word) && c + n <= |bits|
    requires forall i :: c <= i < c + n ==> !bits[i]
    ensures Written(after, bits[..c] + ToBits(n, word) + bits[c + n..])
  {
    hide BitStream, BitOf, ToBits;
    var result := bits[..c] + ToBits(n, word) + bits[c + n..];
    forall i | 0 <= i < 8 * |after| ensures BitStream(after)[i] == (i < |result| && result[i]) {
      if c <= i < c + n {
        ToBitsAt(n, word, i - c);
      }
    }
  }

  // ---- Filling up ----

  const PAD1 := 0xec
  const PAD2 := 0x11

  function PadWord(first: bool): nat {
    if first then PAD1 else PAD2
  }

  /** n pad words, alternating. */
  function Padding(n: nat, first: bool): (bits: seq<bool>)
    ensures |bits| == 8 * n
  {
    if n == 0 then [] else ToBits(8, PadWord(first)) + Padding(n - 1, !first)
  }

  /** What brings a stream with n bits to go to its full length: terminator, fill bits, pad words. */
  function Tail(n: nat): (bits: seq<bool>)
    ensures |bits| == n
  {
    if n < 4 then Zeros(n) else Zeros(4 + (n - 4) % 8) + Padding((n - 4) / 8, true)
  }

  lemma TailEndsStream(n: nat)
    ensures EndsStream(Tail(n))
  {
    if n >= 4 {
      assert Tail(n)[..4] == Zeros(4);
    }
  }

  /** Padding grows at its end too. */
  lemma {:induction false} PaddingAppend(n: nat, first: bool)
    ensures Padding(n + 1, first) == Padding(n, first) + ToBits(8, PadWord((n % 2 == 0) == first))
  {
    hide ToBits, PadWord;
    var head := ToBits(8, PadWord(first));
    if n == 0 {
      assert Padding(0, first) == [] && Padding(1, first) == head;
    } else {
      PaddingAppend(n - 1, !first);
      assert (((n - 1) % 2 == 0) == !first) == ((n % 2 == 0) == first);
      Regroup(head, Padding(n - 1, !first), ToBits(8, PadWord((n % 2 == 0) == first)));
    }
  }

  // ---- Characters in groups ----

  lemma EncodeOneGroup(m: Mode, group: seq<Octet>)
    requires Writable(m) && AllCharsOf(m, group) && |group| <= GroupSize(m)
    ensures EncodeChars(m, group) == ToBits(GroupWidth(m, |group|), GroupValue(m, group))
  {
    hide GroupValue, GroupWidth, ToBits;
  }

  /** Whole groups can be encoded on their own. */
  lemma {:induction false} EncodeCharsSplits(m: Mode, a: seq<Octet>, b: seq<Octet>)
    requires Writable(m) && AllCharsOf(m, a) && AllCharsOf(m, b) && |a| % GroupSize(m) == 0
    ensures AllCharsOf(m, a + b)
    ensures EncodeChars(m, a + b) == EncodeChars(m, a) + EncodeChars(m, b)
    decreases |a|
  {
    hide EncodeChars, GroupValue, GroupWidth, ToBits;
    var g := GroupSize(m);
    if a == [] || b == [] {
      EncodeNothing(m);
      assert a + b == if a == [] then b else a;
    } else {
      var head, more := a[..g], a[g..];
      assert |a| >= g;
      assert (a + b)[..g] == head && (a + b)[g..] == more + b;
      EncodeCharsSplits(m, more, b);
      EncodeGroup(m, a + b);
      if more == [] {
        EncodeOneGroup(m, a);
        assert a == head && more + b == b;
      } else {
        EncodeGroup(m, a);
        Regroup(ToBits(GroupWidth(m, g), GroupValue(m, head)), EncodeChars(m, more), EncodeChars(m, b));
      }
    }
  }

  lemma EncodeNothing(m: Mode)
    requires Writable(m)
    ensures EncodeChars(m, []) == []
  {
  }

  /** The characters seen so far: whole groups written, and a group of n in the making with this value. */
  ghost predicate GroupsDone(m: Mode, data: seq<Octet>, p: nat, n: nat, word: nat)
    requires Writable(m)
  {
    && n <= p <= |data| && n < GroupSize(m) && (p - n) % GroupSize(m) == 0
    && AllCharsOf(m, data[..p]) && AllCharsOf(m, data[p - n..p])
    && word == GroupValue(m, data[p - n..p])
  }

  /** One more character: the group grows. */
  lemma NextChar(m: Mode, data: seq<Octet>, p: nat, n: nat, word: nat)
    requires Writable(m) && GroupsDone(m, data, p, n, word) && p < |data| && IsCharOf(m, data[p])
    ensures AllCharsOf(m, data[..p + 1]) && AllCharsOf(m, data[p - n..p + 1])
    ensures GroupValue(m, data[p - n..p + 1]) == word * Radix(m) + CodeOf(m, data[p])
    ensures n + 1 < GroupSize(m) ==> GroupsDone(m, data, p + 1, n + 1, word * Radix(m) + CodeOf(m, data[p]))
  {
    hide AlnumCode, GroupSize, Radix, CodeOf, GroupValue;
    GroupGrows(m, data[p - n..p], data[p]);
    assert data[p - n..p] + [data[p]] == data[p - n..p + 1];
    assert data[..p + 1] == data[..p] + [data[p]];
  }

  /** A group that has its size is complete. */
  lemma GroupCompletes(m: Mode, data: seq<Octet>, p: nat, g: nat, word: nat)
    requires Writable(m) && g == GroupSize(m) && g <= p <= |data| && (p - g) % g == 0
    requires AllCharsOf(m, data[..p]) && AllCharsOf(m, data[p - g..p]) && word == GroupValue(m, data[p - g..p])
    ensures GroupsDone(m, data, p, 0, 0) && AllCharsOf(m, data[..p - g])
    ensures EncodeChars(m, data[..p]) == EncodeChars(m, data[..p - g]) + ToBits(GroupWidth(m, g), word)
  {
    hide EncodeChars, ToBits, GroupWidth, AlnumCode, GroupSize, GroupValue;
    var group := data[p - g..p];
    EmptyGroup(m, data[p..p]);
    NextGroupStart(m, p - g);
    EncodeOneGroup(m, group);
    EncodeCharsSplits(m, data[..p - g], group);
    assert data[..p - g] + group == data[..p];
  }

  lemma GroupGrows(m: Mode, group: seq<Octet>, c: Octet)
    requires Writable(m) && AllCharsOf(m, group) && IsCharOf(m, c)
    ensures AllCharsOf(m, group + [c])
    ensures GroupValue(m, group + [c]) == GroupValue(m, group) * Radix(m) + CodeOf(m, c)
  {
    hide AlnumCode;
    assert (group + [c])[..|group|] == group;
  }

  lemma NextGroupStart(m: Mode, p: nat)
    requires Writable(m) && p % GroupSize(m) == 0
    ensures (p + GroupSize(m)) % GroupSize(m) == 0
  {
  }

  lemma EmptyGroup(m: Mode, none: seq<Octet>)
    requires Writable(m) && none == []
    ensures AllCharsOf(m, none) && GroupValue(m, none) == 0
    ensures 0 < GroupSize(m)
  {
  }

  /** The group that is left over at the end. */
  lemma LastGroup(m: Mode, data: seq<Octet>, n: nat, word: nat)
    requires Writable(m) && GroupsDone(m, data, |data|, n, word)
    ensures AllCharsOf(m, data) && AllCharsOf(m, data[..|data| - n])
    ensures EncodeChars(m, data) == EncodeChars(m, data[..|data| - n]) + ToBits(GroupWidth(m, n), word)
  {
    hide EncodeChars, ToBits, GroupWidth, AlnumCode, GroupValue, GroupSize;
    assert data[..|data|] == data;
    var group := data[|data| - n..];
    EncodeOneGroup(m, group);
    EncodeCharsSplits(m, data[..|data| - n], group);
    assert data[..|data| - n] + group == data;
  }

  lemma StartOfGroups(m: Mode, data: seq<Octet>)
    requires Writable(m)
    ensures GroupsDone(m, data, 0, 0, 0) && AllCharsOf(m, data[..0]) && EncodeChars(m, data[..0]) == []
  {
    EncodeNothing(m);
    assert data[..0] == [];
  }

  /** Whatever has been written of a segment takes no more room than the whole. */
  lemma PartFits(m: Mode, data: seq<Octet>, p: nat)
    requires Writable(m) && p <= |data| && AllCharsOf(m, data[..p])
    ensures |EncodeChars(m, data[..p])| <= DataLength(m, |data|)
  {
    EncodeCharsLength(m, data[..p]);
    DataLengthMonotone(m, p, |data|);
  }

  /** The terminator and the fill bits of a stream with n bits to go. */
  function Filler(n: nat): nat {
    if n < 4 then n else 4 + (n - 4) % 8
  }

  lemma TailParts(n: nat)
    ensures Filler(n) <= n && (n - Filler(n)) % 8 == 0
    ensures Tail(n) == Zeros(Filler(n)) + Padding((n - Filler(n)) / 8, true)
  {
    if n < 4 {
      assert Padding(0, true) == [];
    }
  }
}
