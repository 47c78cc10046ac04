/**
 The final codeword sequence (ISO/IEC 18004:2015, section 7.6): word 0 of every block, then word 1 of every block, and
 so on, passing over blocks that have run out. Interleaving is a bijection between positions.
 */
module Interleaving {
  import opened Bits

  /** Where block b starts when the blocks lie one after the other. */
  function Start(lens: seq<nat>, b: nat): nat
    requires b <= |lens|
  {
    if b == 0 then 0 else Start(lens, b - 1) + lens[b - 1]
  }

  function Total(lens: seq<nat>): nat {
    Start(lens, |lens|)
  }

  /** Word i of each of the first b blocks that has one. */
  function Round<T>(d: seq<T>, lens: seq<nat>, i: nat, b: nat): (r: seq<T>)
    requires b <= |lens| && Total(lens) <= |d|
    ensures |r| == RoundLength(lens, i, b)
  {
    if b == 0 then []
    else
      StartMonotone(lens, b, |lens|);
      Round(d, lens, i, b - 1) + (if i < lens[b - 1] then [d[Start(lens, b - 1) + i]] else [])
  }

  function RoundLength(lens: seq<nat>, i: nat, b: nat): nat
    requires b <= |lens|
  {
    if b == 0 then 0 else RoundLength(lens, i, b - 1) + (if i < lens[b - 1] then 1 else 0)
  }

  /** The first i rounds. */
  function Rounds<T>(d: seq<T>, lens: seq<nat>, i: nat): (r: seq<T>)
    requires Total(lens) <= |d|
    ensures |r| == RoundsLength(lens, i)
  {
    if i == 0 then [] else Rounds(d, lens, i - 1) + Round(d, lens, i - 1, |lens|)
  }

  function RoundsLength(lens: seq<nat>, i: nat): nat {
    if i == 0 then 0 else RoundsLength(lens, i - 1) + RoundLength(lens, i - 1, |lens|)
  }

  predicate AtMost(lens: seq<nat>, max: nat) {
    forall b :: 0 <= b < |lens| ==> lens[b] <= max
  }

  /** Output position of word i of block b. */
  function Position(lens: seq<nat>, b: nat, i: nat): nat
    requires b < |lens|
  {
    RoundsLength(lens, i) + RoundLength(lens, i, b)
  }

  predicate AllWithin(lens: seq<nat>, n: nat) {
    forall b, i :: 0 <= b < |lens| && 0 <= i < lens[b] ==> Position(lens, b, i) < n
  }

  /** A reader that collects the blocks again. */
  function Block<T>(code: seq<T>, lens: seq<nat>, b: nat): (r: seq<T>)
    requires b < |lens| && AllWithin(lens, |code|)
    ensures |r| == lens[b] && forall i :: 0 <= i < lens[b] ==> r[i] == code[Position(lens, b, i)]
  {
    seq(lens[b], i requires 0 <= i < lens[b] => code[Position(lens, b, i)])
  }

  function Blocks<T>(code: seq<T>, lens: seq<nat>, b: nat): (r: seq<T>)
    requires b <= |lens| && AllWithin(lens, |code|)
    ensures |r| == Start(lens, b)
  {
    if b == 0 then [] else Blocks(code, lens, b - 1) + Block(code, lens, b - 1)
  }

  lemma {:induction false} StartMonotone(lens: seq<nat>, a: nat, b: nat)
    requires a <= b <= |lens|
    ensures Start(lens, a) <= Start(lens, b)
  {
    if a < b {
      StartMonotone(lens, a, b - 1);
    }
  }

  lemma {:induction false} RoundPrefix<T>(d: seq<T>, lens: seq<nat>, i: nat, b: nat, c: nat)
    requires b <= c <= |lens| && Total(lens) <= |d|
    ensures Round(d, lens, i, b) <= Round(d, lens, i, c)
  {
    if b < c {
      RoundPrefix(d, lens, i, b, c - 1);
    }
  }

  lemma {:induction false} RoundsPrefix<T>(d: seq<T>, lens: seq<nat>, i: nat, j: nat)
    requires i <= j && Total(lens) <= |d|
    ensures Rounds(d, lens, i) <= Rounds(d, lens, j)
  {
    if i < j {
      RoundsPrefix(d, lens, i, j - 1);
    }
  }

  /** Every word of every block is at its position. */
  lemma WordAtPosition<T>(d: seq<T>, lens: seq<nat>, max: nat, b: nat, i: nat)
    requires Total(lens) <= |d| && b < |lens| && i < lens[b] <= max
    ensures Start(lens, b) + i < |d|
    ensures Position(lens, b, i) < RoundsLength(lens, max)
    ensures Rounds(d, lens, max)[Position(lens, b, i)] == d[Start(lens, b) + i]
  {
    hide Rounds, Round;
    RoundStep(d, lens, i, b);
    RoundsNext(d, lens, i, max);
    RoundPrefix(d, lens, i, b + 1, |lens|);
    RoundsPrefix(d, lens, i + 1, max);
    var front, row := Rounds(d, lens, i), Round(d, lens, i, |lens|);
    assert row[RoundLength(lens, i, b)] == Round(d, lens, i, b + 1)[RoundLength(lens, i, b)];
    assert (front + row)[Position(lens, b, i)] == row[RoundLength(lens, i, b)];
  }

  // ---- The rounds have as many words as the blocks ----

  function Min(a: nat, b: nat): nat { if a < b then a else b }

  function CappedTotal(lens: seq<nat>, i: nat, b: nat): nat
    requires b <= |lens|
  {
    if b == 0 then 0 else CappedTotal(lens, i, b - 1) + Min(lens[b - 1], i)
  }

  lemma {:induction false} CappedTotalStep(lens: seq<nat>, i: nat, b: nat)
    requires b <= |lens|
    ensures CappedTotal(lens, i + 1, b) == CappedTotal(lens, i, b) + RoundLength(lens, i, b)
  {
    if b > 0 {
      CappedTotalStep(lens, i, b - 1);
    }
  }

  lemma {:induction false} CappedTotalEnds(lens: seq<nat>, i: nat, b: nat)
    requires b <= |lens|
    ensures i == 0 ==> CappedTotal(lens, i, b) == 0
    ensures AtMost(lens, i) ==> CappedTotal(lens, i, b) == Start(lens, b)
  {
    if b > 0 {
      CappedTotalEnds(lens, i, b - 1);
    }
  }

  lemma {:induction false} RoundsLengthIsCapped(lens: seq<nat>, i: nat)
    ensures RoundsLength(lens, i) == CappedTotal(lens, i, |lens|)
  {
    if i == 0 {
      CappedTotalEnds(lens, 0, |lens|);
    } else {
      RoundsLengthIsCapped(lens, i - 1);
      CappedTotalStep(lens, i - 1, |lens|);
    }
  }

  lemma RoundsLengthIsTotal(lens: seq<nat>, max: nat)
    requires AtMost(lens, max)
    ensures RoundsLength(lens, max) == Total(lens)
  {
    RoundsLengthIsCapped(lens, max);
    CappedTotalEnds(lens, max, |lens|);
  }

  // ---- Positions are a bijection ----

  lemma {:induction false} RoundLengthMonotone(lens: seq<nat>, i: nat, b: nat, c: nat)
    requires b <= c <= |lens|
    ensures RoundLength(lens, i, b) <= RoundLength(lens, i, c)
  {
    if b < c {
      RoundLengthMonotone(lens, i, b, c - 1);
    }
  }

  lemma {:induction false} RoundsLengthMonotone(lens: seq<nat>, i: nat, j: nat)
    requires i <= j
    ensures RoundsLength(lens, i) <= RoundsLength(lens, j)
  {
    if i < j {
      RoundsLengthMonotone(lens, i, j - 1);
    }
  }

  /** Words come out round by round, within a round block by block; so no two share a position. */
  lemma PositionsOrdered(lens: seq<nat>, b: nat, i: nat, c: nat, j: nat)
    requires b < |lens| && i < lens[b] && c < |lens| && j < lens[c]
    requires i < j || (i == j && b < c)
    ensures Position(lens, b, i) < Position(lens, c, j)
  {
    if i < j {
      RoundLengthMonotone(lens, i, b + 1, |lens|);
      RoundsLengthMonotone(lens, i + 1, j);
    } else {
      RoundLengthMonotone(lens, i, b + 1, c);
    }
  }

  lemma {:induction false} BlockOfRoundOffset(lens: seq<nat>, i: nat, c: nat, k: nat) returns (b: nat)
    requires c <= |lens| && k < RoundLength(lens, i, c)
    ensures b < c && i < lens[b] && RoundLength(lens, i, b) == k
  {
    if k < RoundLength(lens, i, c - 1) {
      b := BlockOfRoundOffset(lens, i, c - 1, k);
    } else {
      b := c - 1;
    }
  }

  /** Every output position holds some word of some block. */
  lemma {:induction false} PositionsOnto(lens: seq<nat>, max: nat, k: nat) returns (b: nat, i: nat)
    requires k < RoundsLength(lens, max)
    ensures b < |lens| && i < lens[b] && i < max && Position(lens, b, i) == k
  {
    if k < RoundsLength(lens, max - 1) {
      b, i := PositionsOnto(lens, max - 1, k);
    } else {
      i := max - 1;
      b := BlockOfRoundOffset(lens, i, |lens|, k - RoundsLength(lens, i));
    }
  }

  lemma WordsWithin(lens: seq<nat>, max: nat, n: nat)
    requires AtMost(lens, max) && RoundsLength(lens, max) <= n
    ensures AllWithin(lens, n)
  {
    forall b, i | 0 <= b < |lens| && 0 <= i < lens[b] ensures Position(lens, b, i) < n {
      RoundLengthMonotone(lens, i, b + 1, |lens|);
      RoundsLengthMonotone(lens, i + 1, max);
    }
  }

  lemma BlockOfRounds<T>(d: seq<T>, lens: seq<nat>, max: nat, code: seq<T>, b: nat)
    requires Total(lens) <= |d| && AtMost(lens, max) && b < |lens| && AllWithin(lens, |code|)
    requires Rounds(d, lens, max) <= code
    ensures Start(lens, b + 1) == Start(lens, b) + lens[b] <= |d|
    ensures Block(code, lens, b) == d[Start(lens, b)..Start(lens, b + 1)]
  {
    StartMonotone(lens, b + 1, |lens|);
    hide Rounds, Position, AllWithin, Block;
    forall i | 0 <= i < lens[b] ensures Block(code, lens, b)[i] == d[Start(lens, b)..Start(lens, b + 1)][i] {
      WordAtPosition(d, lens, max, b, i);
    }
  }

  /** Reading the blocks back from the rounds gives the data. */
  lemma {:induction false} BlocksOfRounds<T>(d: seq<T>, lens: seq<nat>, max: nat, code: seq<T>, b: nat)
    requires Total(lens) <= |d| && AtMost(lens, max) && b <= |lens|
    requires Rounds(d, lens, max) <= code
    ensures AllWithin(lens, |code|)
    ensures Start(lens, b) <= |d| && Blocks(code, lens, b) == d[..Start(lens, b)]
  {
    hide Rounds, Position, AllWithin, Block;
    WordsWithin(lens, max, |code|);
    StartMonotone(lens, b, |lens|);
    if b > 0 {
      BlocksOfRounds(d, lens, max, code, b - 1);
      BlockOfRounds(d, lens, max, code, b - 1);
      assert d[..Start(lens, b - 1)] + d[Start(lens, b - 1)..Start(lens, b)] == d[..Start(lens, b)];
    }
  }

  // ---- The encoder's loops ----

  /** `count` blocks of `len` words each. */
  datatype BlockKind = BlockKind(count: nat, len: nat)

  function Lengths(kinds: seq<BlockKind>): seq<nat> {
    if kinds == [] then [] else Lengths(kinds[..|kinds| - 1]) + Repeat(kinds[|kinds| - 1].len, kinds[|kinds| - 1].count)
  }

  function Repeat(len: nat, count: nat): (r: seq<nat>)
    ensures |r| == count && forall k :: 0 <= k < count ==> r[k] == len
  {
    seq(count, _ => len)
  }

  /** The last kind of block is the longest. */
  predicate LastLongest(kinds: seq<BlockKind>) {
    kinds != [] && forall j :: 0 <= j < |kinds| ==> kinds[j].len <= kinds[|kinds| - 1].len
  }

  lemma {:induction false} LengthsOfPrefix(kinds: seq<BlockKind>, j: nat)
    requires j < |kinds|
    ensures Lengths(kinds[..j + 1]) == Lengths(kinds[..j]) + Repeat(kinds[j].len, kinds[j].count)
    ensures Lengths(kinds[..j + 1]) <= Lengths(kinds)
    decreases |kinds|
  {
    assert kinds[..j + 1][..j] == kinds[..j];
    if j + 1 < |kinds| {
      var front := kinds[..|kinds| - 1];
      LengthsOfPrefix(front, j);
      assert front[..j + 1] == kinds[..j + 1] && front[..j] == kinds[..j];
    } else {
      assert kinds[..j + 1] == kinds;
    }
  }

  lemma {:induction false} LengthsAtMost(kinds: seq<BlockKind>, max: nat)
    requires forall j :: 0 <= j < |kinds| ==> kinds[j].len <= max
    ensures AtMost(Lengths(kinds), max)
  {
    if kinds != [] {
      LengthsAtMost(kinds[..|kinds| - 1], max);
    }
  }

  lemma LastIsMost(kinds: seq<BlockKind>)
    requires LastLongest(kinds)
    ensures kinds != [] && AtMost(Lengths(kinds), kinds[|kinds| - 1].len)
  {
    hide Lengths, AtMost;
    LengthsAtMost(kinds, kinds[|kinds| - 1].len);
  }

  lemma RoundStep<T>(d: seq<T>, lens: seq<nat>, i: nat, b: nat)
    requires b < |lens| && Total(lens) <= |d|
    ensures Start(lens, b + 1) == Start(lens, b) + lens[b] <= |d|
    ensures Round(d, lens, i, b + 1) == Round(d, lens, i, b) + (if i < lens[b] then [d[Start(lens, b) + i]] else [])
    ensures RoundLength(lens, i, b + 1) <= RoundLength(lens, i, |lens|)
  {
    StartMonotone(lens, b + 1, |lens|);
    RoundLengthMonotone(lens, i, b + 1, |lens|);
  }

  /** Appends the rounds of src to dst from position top on. */
  method AppendRounds(src: array<bv8>, dst: array<bv8>, top: nat, kinds: seq<BlockKind>) returns (end: nat)
    requires src != dst && LastLongest(kinds)
    requires Total(Lengths(kinds)) <= src.Length && top + Total(Lengths(kinds)) <= dst.Length
    modifies dst
    ensures end == top + Total(Lengths(kinds))
    ensures dst[..end] == old(dst[..top]) + Rounds(src[..], Lengths(kinds), kinds[|kinds| - 1].len)
    ensures dst[end..] == old(dst[end..])
  {
    hide *;
    LastIsMost(kinds);
    ghost var lens, data, before := Lengths(kinds), src[..], dst[..];
    var max := kinds[|kinds| - 1].len;
    RoundsLengthIsTotal(lens, max);
    end := top;
    RoundsStart(data, lens);
    for i := 0 to max
      invariant end == top + |Rounds(data, lens, i)| <= dst.Length
      invariant dst[..end] == before[..top] + Rounds(data, lens, i) && dst[end..] == before[end..]
    {
      RoundsNext(data, lens, i, max);
      end := AppendRound(src, dst, end, kinds, i);
      Regroup(before[..top], Rounds(data, lens, i), Round(data, lens, i, |lens|));
    }
  }

  /** Appends word i of every block that has one. */
  method AppendRound(src: array<bv8>, dst: array<bv8>, top: nat, kinds: seq<BlockKind>, i: nat) returns (end: nat)
    requires src != dst && Total(Lengths(kinds)) <= src.Length
    requires top + RoundLength(Lengths(kinds), i, |Lengths(kinds)|) <= dst.Length
    modifies dst
    ensures end == top + RoundLength(Lengths(kinds), i, |Lengths(kinds)|)
    ensures dst[..end] == old(dst[..top]) + Round(src[..], Lengths(kinds), i, |Lengths(kinds)|)
    ensures dst[end..] == old(dst[end..])
  {
    ghost var lens, data, before := Lengths(kinds), src[..], dst[..];
    hide *;
    RoundsStart(data, lens);
    end := top;
    var pos := i;
    for j := 0 to |kinds|
      invariant |Lengths(kinds[..j])| <= |lens|
      invariant pos == Start(lens, |Lengths(kinds[..j])|) + i
      invariant end == top + |Round(data, lens, i, |Lengths(kinds[..j])|)|
      invariant Appended(before, top, Round(data, lens, i, |Lengths(kinds[..j])|), dst[..])
    {
      LengthsOfPrefix(kinds, j);
      ghost var b := |Lengths(kinds[..j])|;
      assert forall m :: b <= m < b + kinds[j].count ==> lens[m] == Lengths(kinds[..j + 1])[m];
      end, pos := AppendKind(src, dst, end, pos, kinds[j], i, lens, b, before, top);
    }
    assert kinds[..|kinds|] == kinds;
    AppendedSlices(before, top, Round(data, lens, i, |lens|), dst[..]);
  }

  /** The innermost loop: word i of each block of one kind, the blocks of that kind being number b and on. */
  method AppendKind(src: array<bv8>, dst: array<bv8>, end: nat, pos: nat, kind: BlockKind, i: nat,
                    ghost lens: seq<nat>, ghost b: nat, ghost before: seq<bv8>, ghost top: nat)
    returns (end': nat, pos': nat)
    requires src != dst && Total(lens) <= src.Length
    requires b + kind.count <= |lens| && forall m :: b <= m < b + kind.count ==> lens[m] == kind.len
    requires pos == Start(lens, b) + i
    requires end == top + |Round(src[..], lens, i, b)| && top + RoundLength(lens, i, |lens|) <= dst.Length
    requires Appended(before, top, Round(src[..], lens, i, b), dst[..])
    modifies dst
    ensures pos' == Start(lens, b + kind.count) + i
    ensures end' == top + |Round(src[..], lens, i, b + kind.count)|
    ensures Appended(before, top, Round(src[..], lens, i, b + kind.count), dst[..])
  {
    ghost var data, now := src[..], dst[..];
    hide *;
    end', pos' := end, pos;
    for k := 0 to kind.count
      invariant pos' == Start(lens, b + k) + i
      invariant end' == top + |Round(data, lens, i, b + k)|
      invariant dst[..] == now && Appended(before, top, Round(data, lens, i, b + k), now)
    {
      RoundStep(data, lens, i, b + k);
      assert lens[b + k] == kind.len;
      if i < kind.len {
        AppendOne(before, top, Round(data, lens, i, b + k), now, data[pos']);
        dst[end'] := src[pos'];
        now := now[end' := data[pos']];
        end' := end' + 1;
      }
      pos' := pos' + kind.len;
    }
  }

  /** now is before with out written from position top on. */
  ghost predicate Appended<T>(before: seq<T>, top: nat, out: seq<T>, now: seq<T>) {
    && |now| == |before| && top + |out| <= |before|
    && (forall i :: 0 <= i < |now| ==>
         now[i] == if top <= i < top + |out| then out[i - top] else before[i])
  }

  lemma AppendOne<T>(before: seq<T>, top: nat, out: seq<T>, now: seq<T>, x: T)
    requires Appended(before, top, out, now) && top + |out| < |now|
    ensures Appended(before, top, out + [x], now[top + |out| := x])
  {
  }

  lemma AppendedSlices<T>(before: seq<T>, top: nat, out: seq<T>, now: seq<T>)
    requires Appended(before, top, out, now)
    ensures now[..top + |out|] == before[..top] + out && now[top + |out|..] == before[top + |out|..]
  {
  }

  lemma RoundsStart<T>(d: seq<T>, lens: seq<nat>)
    requires Total(lens) <= |d|
    ensures Rounds(d, lens, 0) == [] && Start(lens, 0) == 0 && |Lengths([])| == 0
    ensures forall i: nat :: Round(d, lens, i, 0) == []
    ensures forall s: seq<T>, top: nat :: top <= |s| ==> Appended(s, top, [], s)
  {
  }

  lemma RoundsNext<T>(d: seq<T>, lens: seq<nat>, i: nat, max: nat)
    requires Total(lens) <= |d| && i < max
    ensures Rounds(d, lens, i + 1) == Rounds(d, lens, i) + Round(d, lens, i, |lens|)
    ensures |Rounds(d, lens, i)| + RoundLength(lens, i, |lens|) <= RoundsLength(lens, max)
    ensures |Rounds(d, lens, i + 1)| <= RoundsLength(lens, max)
  {
    RoundsLengthMonotone(lens, i + 1, max);
  }
}
