/**
 The error-correction blocks of a version and level: the data words are cut into blocks, each is completed to a
 codeword, and both parts are interleaved; a reader that collects the blocks again gets data and codewords back.
 */
module CodewordBlocks {
  import opened VersionTable
  import opened Interleaving
  import RS = ReedSolomon
  import Syndromes

  function Kinds(n1: nat, len1: nat, n2: nat, len2: nat): (kinds: seq<BlockKind>)
    ensures |kinds| == if n2 == 0 then 1 else 2
  {
    if n2 == 0 then [BlockKind(n1, len1)] else [BlockKind(n1, len1), BlockKind(n2, len2)]
  }

  function DataKinds(l: Level): seq<BlockKind> {
    Kinds(l.n1, l.d1, l.n2, l.d2)
  }

  /** Error-correction words of a block. */
  function EcWords(l: Level): nat {
    if l.t1 < l.d1 then 0 else l.t1 - l.d1
  }

  function EcKinds(l: Level): seq<BlockKind> {
    Kinds(l.n1, EcWords(l), l.n2, if l.t2 < l.d2 then 0 else l.t2 - l.d2)
  }

  function DataLengths(l: Level): seq<nat> {
    Lengths(DataKinds(l))
  }

  function EcLengths(l: Level): seq<nat> {
    Lengths(EcKinds(l))
  }

  lemma {:induction false} StartOfPrefix(a: seq<nat>, b: seq<nat>, k: nat)
    requires a <= b && k <= |a|
    ensures Start(a, k) == Start(b, k)
  {
    if k > 0 {
      StartOfPrefix(a, b, k - 1);
    }
  }

  lemma {:induction false} StartInRepeat(lens: seq<nat>, len: nat, count: nat, k: nat)
    requires k <= count
    ensures Start(lens + Repeat(len, count), |lens| + k) == Start(lens, |lens|) + k * len
  {
    if k == 0 {
      StartOfPrefix(lens, lens + Repeat(len, count), |lens|);
    } else {
      StartInRepeat(lens, len, count, k - 1);
      assert k * len == (k - 1) * len + len;
    }
  }

  lemma LengthsByKind(n1: nat, len1: nat, n2: nat, len2: nat)
    ensures Lengths([BlockKind(n1, len1)]) == Repeat(len1, n1)
    ensures Lengths([BlockKind(n1, len1), BlockKind(n2, len2)]) == Repeat(len1, n1) + Repeat(len2, n2)
  {
    hide Repeat;
    var one, two := [BlockKind(n1, len1)], [BlockKind(n1, len1), BlockKind(n2, len2)];
    assert one[..0] == [] && two[..1] == one;
    assert Lengths(one[..0]) == [];
    assert [] + Repeat(len1, n1) == Repeat(len1, n1);
  }

  lemma LengthsOfKinds(n1: nat, len1: nat, n2: nat, len2: nat)
    ensures var lens := Lengths(Kinds(n1, len1, n2, len2));
            && |lens| == n1 + n2 && Total(lens) == n1 * len1 + n2 * len2
            && forall b :: 0 <= b < |lens| ==> lens[b] == if b < n1 then len1 else len2
  {
    hide Lengths, Start;
    LengthsByKind(n1, len1, n2, len2);
    var none: seq<nat> := [];
    var front := Repeat(len1, n1);
    assert none + front == front;
    StartInRepeat(none, len1, n1, n1);
    StartInRepeat(front, len2, n2, n2);
    StartOfNothing(none);
  }

  lemma StartOfNothing(lens: seq<nat>)
    ensures Start(lens, 0) == 0
  {
  }

  /** What the methods below need to know of a consistent row. */
  ghost predicate Fitting(l: Level, total: nat) {
    && |DataLengths(l)| == |EcLengths(l)| == l.n1 + l.n2
    && Total(DataLengths(l)) == l.dataWords && Total(EcLengths(l)) + l.dataWords == total
    && LastLongest(DataKinds(l)) && LastLongest(EcKinds(l))
    && (forall b :: 0 <= b < |DataLengths(l)| ==> DataLengths(l)[b] <= MAX_BLOCK_DATA && EcLengths(l)[b] == EcWords(l))
    && 0 < EcWords(l) <= 30
  }

  lemma ConsistentFits(l: Level, total: nat)
    requires Consistent(l, total)
    ensures Fitting(l, total)
  {
    var e := EcWords(l);
    var e2 := if l.t2 < l.d2 then 0 else l.t2 - l.d2;
    hide Lengths, Total;
    LengthsOfKinds(l.n1, l.d1, l.n2, l.d2);
    LengthsOfKinds(l.n1, e, l.n2, e2);
    Distribute(l.n1, l.t1, l.d1);
    if l.n2 > 0 {
      Distribute(l.n2, l.t2, l.d2);
    }
  }

  lemma Distribute(n: nat, t: nat, d: nat)
    requires d <= t
    ensures n * t == n * d + n * (t - d)
  {
  }

  /** Block b of blocks that lie one after the other. */
  function Slice<T>(d: seq<T>, lens: seq<nat>, b: nat): (r: seq<T>)
    requires b < |lens| && Total(lens) <= |d|
    ensures |r| == lens[b]
  {
    StartMonotone(lens, b + 1, |lens|);
    d[Start(lens, b)..Start(lens, b + 1)]
  }

  /** The first n blocks are codewords. */
  ghost predicate Coded(data: seq<bv8>, ec: seq<bv8>, dlens: seq<nat>, elens: seq<nat>, g: seq<nat>, n: nat)
    requires RS.IsGenerator(g) && n <= |dlens| && n <= |elens| && Total(dlens) <= |data| && Total(elens) <= |ec|
  {
    forall b :: 0 <= b < n ==> RS.IsCodeword(Slice(data, dlens, b), Slice(ec, elens, b), RS.Monic(g))
  }

  /** Words written at and after the start of block n leave the blocks before it alone. */
  lemma CodedKept(data: seq<bv8>, ec: seq<bv8>, now: seq<bv8>, dlens: seq<nat>, elens: seq<nat>, g: seq<nat>, n: nat)
    requires RS.IsGenerator(g) && n <= |dlens| && n <= |elens| && Total(dlens) <= |data| && Total(elens) <= |ec|
    requires Coded(data, ec, dlens, elens, g, n)
    requires |now| == |ec| && Start(elens, n) <= |ec| && now[..Start(elens, n)] == ec[..Start(elens, n)]
    ensures Coded(data, now, dlens, elens, g, n)
  {
    hide RS.IsCodeword, RS.Monic;
    forall b | 0 <= b < n ensures Slice(now, elens, b) == Slice(ec, elens, b) {
      StartMonotone(elens, b + 1, n);
      var s, t := Start(elens, b), Start(elens, b + 1);
      assert now[..Start(elens, n)][s..t] == now[s..t] && ec[..Start(elens, n)][s..t] == ec[s..t];
    }
  }

  lemma StartNext(lens: seq<nat>, b: nat)
    requires b < |lens|
    ensures Start(lens, b + 1) == Start(lens, b) + lens[b] <= Total(lens)
  {
    StartMonotone(lens, b + 1, |lens|);
  }

  /** Copies src into dst from position top on. */
  method CopyInto(src: seq<bv8>, dst: array<bv8>, top: nat)
    requires top + |src| <= dst.Length
    modifies dst
    ensures dst[..top] == old(dst[..top]) && dst[top..top + |src|] == src
    ensures dst[top + |src|..] == old(dst[top + |src|..])
  {
    for i := 0 to |src|
      invariant forall j :: 0 <= j < dst.Length ==>
        dst[j] == if top <= j < top + i then src[j - top] else old(dst[j])
    {
      dst[top + i] := src[i];
    }
  }

  /** The blocks of one kind, the first of them being number b. */
  method ComputeKind(dataword: array<bv8>, ecword: array<bv8>, dwtop: nat, ecwtop: nat, count: nat, dwlen: nat, ecwlen: nat,
                     ghost dlens: seq<nat>, ghost elens: seq<nat>, ghost b: nat)
    returns (dwend: nat, ecwend: nat)
    requires dataword != ecword && 0 < ecwlen <= 30 && dwlen <= MAX_BLOCK_DATA
    requires Total(dlens) <= dataword.Length && Total(elens) <= ecword.Length
    requires b + count <= |dlens| && b + count <= |elens|
    requires forall k :: b <= k < b + count ==> dlens[k] == dwlen && elens[k] == ecwlen
    requires dwtop == Start(dlens, b) && ecwtop == Start(elens, b)
    requires RS.IsGenerator(Syndromes.GeneratorRow(ecwlen))
    requires Coded(dataword[..], ecword[..], dlens, elens, Syndromes.GeneratorRow(ecwlen), b)
    modifies ecword
    ensures dwend == Start(dlens, b + count) && ecwend == Start(elens, b + count)
    ensures Coded(dataword[..], ecword[..], dlens, elens, Syndromes.GeneratorRow(ecwlen), b + count)
  {
    var g := Syndromes.GeneratorRow(ecwlen);
    hide *;
    dwend, ecwend := dwtop, ecwtop;
    for j := 0 to count
      invariant dwend == Start(dlens, b + j) && ecwend == Start(elens, b + j)
      invariant Coded(dataword[..], ecword[..], dlens, elens, g, b + j)
    {
      StartNext(dlens, b + j);
      StartNext(elens, b + j);
      var ec := RS.DivideBlock(dataword[dwend..dwend + dwlen], g);
      ghost var before := ecword[..];
      CopyInto(ec, ecword, ecwend);
      BlockWritten(dataword[..], before, ecword[..], dlens, elens, g, b + j, ec);
      dwend := dwend + dwlen;
      ecwend := ecwend + ecwlen;
    }
  }

  lemma BlockWritten(data: seq<bv8>, ec: seq<bv8>, now: seq<bv8>, dlens: seq<nat>, elens: seq<nat>, g: seq<nat>, n: nat,
                     block: seq<bv8>)
    requires RS.IsGenerator(g) && n < |dlens| && n < |elens| && Total(dlens) <= |data| && Total(elens) <= |ec|
    requires Coded(data, ec, dlens, elens, g, n)
    requires |now| == |ec| && Start(elens, n + 1) == Start(elens, n) + |block| <= |ec|
    requires now[..Start(elens, n)] == ec[..Start(elens, n)]
    requires now[Start(elens, n)..Start(elens, n + 1)] == block
    requires RS.IsCodeword(Slice(data, dlens, n), block, RS.Monic(g))
    ensures Coded(data, now, dlens, elens, g, n + 1)
  {
    hide RS.IsCodeword, RS.Monic;
    CodedKept(data, ec, now, dlens, elens, g, n);
  }

  /** The error-correction words of every block. */
  method ComputeErrorCorrection(dataword: array<bv8>, ecword: array<bv8>, l: Level, ghost total: nat)
    requires dataword != ecword && Consistent(l, total)
    requires l.dataWords <= dataword.Length && total - l.dataWords <= ecword.Length
    modifies ecword
    ensures Fitting(l, total) && RS.IsGenerator(Syndromes.GeneratorRow(EcWords(l)))
    ensures Coded(dataword[..], ecword[..], DataLengths(l), EcLengths(l), Syndromes.GeneratorRow(EcWords(l)), l.n1 + l.n2)
  {
    ghost var dlens, elens := DataLengths(l), EcLengths(l);
    hide *;
    BlocksByKind(l, total, dlens, elens, dataword[..], ecword[..]);
    var dwtop, ecwtop := ComputeKind(dataword, ecword, 0, 0, l.n1, l.d1, EcWords(l), dlens, elens, 0);
    if l.n2 > 0 {
      dwtop, ecwtop := ComputeKind(dataword, ecword, dwtop, ecwtop, l.n2, l.d2, EcWords(l), dlens, elens, l.n1);
    }
  }

  lemma BlocksByKind(l: Level, total: nat, dlens: seq<nat>, elens: seq<nat>, data: seq<bv8>, ec: seq<bv8>)
    requires Consistent(l, total) && dlens == DataLengths(l) && elens == EcLengths(l)
    requires l.dataWords <= |data| && total - l.dataWords <= |ec|
    ensures Fitting(l, total) && 0 < EcWords(l) <= 30 && RS.IsGenerator(Syndromes.GeneratorRow(EcWords(l)))
    ensures l.d1 <= MAX_BLOCK_DATA && l.d2 <= MAX_BLOCK_DATA
    ensures |dlens| == |elens| == l.n1 + l.n2 && Total(dlens) == l.dataWords && Total(elens) == total - l.dataWords
    ensures Start(dlens, 0) == 0 && Start(elens, 0) == 0
    ensures forall k :: 0 <= k < l.n1 ==> dlens[k] == l.d1 && elens[k] == EcWords(l)
    ensures forall k :: l.n1 <= k < l.n1 + l.n2 ==> dlens[k] == l.d2 && elens[k] == EcWords(l)
    ensures Coded(data, ec, dlens, elens, Syndromes.GeneratorRow(EcWords(l)), 0)
  {
    ConsistentFits(l, total);
    Syndromes.GeneratorRowIsGenerator(EcWords(l));
    LengthsOfKinds(l.n1, l.d1, l.n2, l.d2);
    hide Lengths, Total, LastLongest, RS.IsCodeword, RS.IsGenerator, Kinds;
    StartOfNothing(dlens);
    StartOfNothing(elens);
  }

  /** The final sequence: all data words, then all error-correction words, both interleaved. */
  ghost predicate Interleaved(code: seq<bv8>, data: seq<bv8>, ec: seq<bv8>, l: Level, total: nat)
    requires Fitting(l, total) && l.dataWords <= |data| && total - l.dataWords <= |ec|
  {
    && total <= |code|
    && code[..total] == Rounds(data, DataLengths(l), DataKinds(l)[|DataKinds(l)| - 1].len)
                        + Rounds(ec, EcLengths(l), EcKinds(l)[|EcKinds(l)| - 1].len)
  }

  method MakeCodewords(dataword: array<bv8>, ecword: array<bv8>, codeword: array<bv8>, l: Level, ghost total: nat)
    requires dataword != codeword && ecword != codeword && Consistent(l, total)
    requires l.dataWords <= dataword.Length && total - l.dataWords <= ecword.Length && total <= codeword.Length
    modifies codeword
    ensures Fitting(l, total) && Interleaved(codeword[..], dataword[..], ecword[..], l, total)
  {
    hide *;
    FittingMeans(l, total);
    var cwtop := AppendRounds(dataword, codeword, 0, DataKinds(l));
    var end := AppendRounds(ecword, codeword, cwtop, EcKinds(l));
    BothParts(codeword[..], end, dataword[..], ecword[..], l, total);
  }

  lemma FittingMeans(l: Level, total: nat)
    requires Consistent(l, total)
    ensures Fitting(l, total)
    ensures DataKinds(l) != [] && Total(Lengths(DataKinds(l))) == l.dataWords && LastLongest(DataKinds(l))
    ensures EcKinds(l) != [] && Total(Lengths(EcKinds(l))) + l.dataWords == total && LastLongest(EcKinds(l))
  {
    ConsistentFits(l, total);
    hide Lengths, Total, LastLongest;
  }

  lemma BothParts(code: seq<bv8>, end: nat, data: seq<bv8>, ec: seq<bv8>, l: Level, total: nat)
    requires Fitting(l, total) && l.dataWords <= |data| && total - l.dataWords <= |ec| && end == total <= |code|
    requires code[..end] == code[..0] + Rounds(data, Lengths(DataKinds(l)), DataKinds(l)[|DataKinds(l)| - 1].len)
                            + Rounds(ec, Lengths(EcKinds(l)), EcKinds(l)[|EcKinds(l)| - 1].len)
    ensures Interleaved(code, data, ec, l, total)
  {
    hide Rounds, Lengths, Kinds;
    assert code[..0] == [];
  }

  // ---- The reader's side ----

  /** Data words collected from the final sequence. */
  ghost function DataPart(code: seq<bv8>, v: int, ecl: nat): (data: seq<bv8>)
    requires IsVersion(v) && ecl < 4 && |code| == TotalWords(v)
    ensures |data| == LevelOf(v, ecl).dataWords
  {
    PartsFit(v, ecl);
    Blocks(code, DataLengths(LevelOf(v, ecl)), |DataLengths(LevelOf(v, ecl))|)
  }

  /** Block b of the final sequence: its data, then its error-correction words. */
  ghost function CodeBlock(code: seq<bv8>, v: int, ecl: nat, b: nat): seq<bv8>
    requires IsVersion(v) && ecl < 4 && |code| == TotalWords(v) && b < LevelOf(v, ecl).BlockCount()
  {
    PartsFit(v, ecl);
    Block(code, DataLengths(LevelOf(v, ecl)), b)
    + Block(code[LevelOf(v, ecl).dataWords..], EcLengths(LevelOf(v, ecl)), b)
  }

  lemma PartsFit(v: int, ecl: nat)
    requires IsVersion(v) && ecl < 4
    ensures Fitting(LevelOf(v, ecl), TotalWords(v)) && LevelOf(v, ecl).dataWords <= TotalWords(v)
    ensures AllWithin(DataLengths(LevelOf(v, ecl)), TotalWords(v))
    ensures AllWithin(EcLengths(LevelOf(v, ecl)), TotalWords(v) - LevelOf(v, ecl).dataWords)
  {
    var l, total := LevelOf(v, ecl), TotalWords(v);
    TableConsistent(v, ecl);
    ConsistentFits(l, total);
    hide LevelOf, TotalWords;
    MaxOfKinds(DataKinds(l), total);
    MaxOfKinds(EcKinds(l), total - l.dataWords);
  }

  lemma MaxOfKinds(kinds: seq<BlockKind>, n: nat)
    requires LastLongest(kinds) && Total(Lengths(kinds)) <= n
    ensures AtMost(Lengths(kinds), kinds[|kinds| - 1].len)
    ensures RoundsLength(Lengths(kinds), kinds[|kinds| - 1].len) == Total(Lengths(kinds))
    ensures AllWithin(Lengths(kinds), n)
  {
    var max := kinds[|kinds| - 1].len;
    LengthsAtMost(kinds, max);
    RoundsLengthIsTotal(Lengths(kinds), max);
    WordsWithin(Lengths(kinds), max, n);
  }

  /** The reader gets the data words back. */
  lemma DataPartOfInterleaved(data: seq<bv8>, ec: seq<bv8>, code: seq<bv8>, v: int, ecl: nat)
    requires IsVersion(v) && ecl < 4 && |code| == TotalWords(v)
    requires LevelOf(v, ecl).dataWords <= |data| && TotalWords(v) - LevelOf(v, ecl).dataWords <= |ec|
    requires Fitting(LevelOf(v, ecl), TotalWords(v))
    requires Interleaved(code, data, ec, LevelOf(v, ecl), TotalWords(v))
    ensures DataPart(code, v, ecl) == data[..LevelOf(v, ecl).dataWords]
  {
    PartsFit(v, ecl);
    var l := LevelOf(v, ecl);
    hide LevelOf, TotalWords, Lengths, Kinds, Rounds, Blocks;
    MaxOfKinds(DataKinds(l), |code|);
    assert code[..|code|] == code;
    BlocksOfRounds(data, DataLengths(l), DataKinds(l)[|DataKinds(l)| - 1].len, code, |DataLengths(l)|);
  }

  /** The reader sees codewords: every syndrome of every block is zero. */
  lemma BlocksAreCodewords(data: seq<bv8>, ec: seq<bv8>, code: seq<bv8>, v: int, ecl: nat, b: nat, i: nat)
    requires IsVersion(v) && ecl < 4 && |code| == TotalWords(v) && b < LevelOf(v, ecl).BlockCount()
    requires LevelOf(v, ecl).dataWords <= |data| && TotalWords(v) - LevelOf(v, ecl).dataWords <= |ec|
    requires Fitting(LevelOf(v, ecl), TotalWords(v))
    requires Interleaved(code, data, ec, LevelOf(v, ecl), TotalWords(v))
    requires RS.IsGenerator(Syndromes.GeneratorRow(EcWords(LevelOf(v, ecl))))
    requires Coded(data, ec, DataLengths(LevelOf(v, ecl)), EcLengths(LevelOf(v, ecl)),
                   Syndromes.GeneratorRow(EcWords(LevelOf(v, ecl))), LevelOf(v, ecl).BlockCount())
    requires i < EcWords(LevelOf(v, ecl))
    ensures Syndromes.ValueAt(CodeBlock(code, v, ecl, b), i) == 0
  {
    PartsFit(v, ecl);
    var l := LevelOf(v, ecl);
    hide LevelOf, TotalWords, Lengths, Kinds, Rounds, Blocks, Block, RS.IsCodeword, RS.Monic, Syndromes.ValueAt;
    var dlens, elens := DataLengths(l), EcLengths(l);
    var dmax, emax := DataKinds(l)[|DataKinds(l)| - 1].len, EcKinds(l)[|EcKinds(l)| - 1].len;
    MaxOfKinds(DataKinds(l), |code|);
    MaxOfKinds(EcKinds(l), |code| - l.dataWords);
    assert code[..|code|] == code;
    BlockOfRounds(data, dlens, dmax, code, b);
    var rest := code[l.dataWords..];
    assert rest == Rounds(ec, elens, emax);
    BlockOfRounds(ec, elens, emax, rest, b);
    Syndromes.SyndromesVanish(Slice(data, dlens, b), Slice(ec, elens, b), EcWords(l), i);
  }
}
