/**
 Choice of the version when finalizing. Lengths are first counted with the count widths of version 40; two corrections
 say how much shorter the stream gets with the widths of versions up to 9 and up to 26.
 */
module VersionChoice {
  import opened Bits
  import opened Segments
  import opened VersionTable

  const VERPOINT1 := 9
  const VERPOINT2 := 26

  /** While the version is open, lengths are counted for the largest one. */
  function Nominal(version: int): (v: int)
    requires version == -1 || IsVersion(version)
    ensures IsVersion(v)
  {
    if version == -1 then MAX_VERSION else version
  }

  function Capacity(v: int, level: nat): nat
    requires IsVersion(v) && level < 4
  {
    8 * LevelOf(v, level).dataWords
  }

  lemma CapacityIs(v: int, level: nat)
    requires IsVersion(v) && level < 4
    ensures Capacity(v, level) == 8 * LevelOf(v, level).dataWords
  {
  }

  /** The correction that applies to version v. */
  function DeltaFor(v: int, delta1: int, delta2: int): int {
    if v <= VERPOINT1 then delta1 else if v <= VERPOINT2 then delta2 else 0
  }

  /** How much the corrections are off after adds that failed over their characters, each 4 and 2 bits. */
  function Drift(v: int, rejected: nat): nat {
    DeltaFor(v, 4 * rejected, 2 * rejected)
  }

  predicate Fits(v: int, segs: seq<Segment>, level: nat)
    requires IsVersion(v) && level < 4 && AllStorable(segs)
  {
    TotalLength(Widths(v), segs) <= Capacity(v, level)
  }

  /** The search takes the first version that seems to be large enough. */
  predicate SeemsToFit(v: int, segs: seq<Segment>, level: nat, rejected: nat)
    requires IsVersion(v) && level < 4 && AllStorable(segs)
  {
    TotalLength(Widths(v), segs) <= Capacity(v, level) + Drift(v, rejected)
  }

  predicate IsChoice(v: int, segs: seq<Segment>, level: nat, rejected: nat)
    requires level < 4 && AllStorable(segs)
  {
    && IsVersion(v) && SeemsToFit(v, segs, level, rejected)
    && forall u :: 1 <= u < v ==> !SeemsToFit(u, segs, level, rejected)
  }

  /** The least version that the data fit in. */
  predicate IsLeastFitting(v: int, segs: seq<Segment>, level: nat)
    requires level < 4 && AllStorable(segs)
  {
    IsVersion(v) && Fits(v, segs, level) && forall u :: 1 <= u < v ==> !Fits(u, segs, level)
  }

  /** Without failed adds the choice is right. */
  lemma ChoiceIsLeast(v: int, segs: seq<Segment>, level: nat)
    requires level < 4 && AllStorable(segs)
    ensures IsChoice(v, segs, level, 0) <==> IsLeastFitting(v, segs, level)
  {
    hide TotalLength, Capacity;
    forall u | IsVersion(u) ensures SeemsToFit(u, segs, level, 0) == Fits(u, segs, level) {
    }
  }

  /** None of the first u versions has room. */
  predicate TooSmallUpTo(u: int, segs: seq<Segment>, level: nat)
    requires IsVersion(u) && level < 4 && AllStorable(segs)
  {
    forall w :: 1 <= w <= u ==> !Fits(w, segs, level)
  }

  /** Every version below the least one that has room is too small by more than the drift. */
  ghost predicate DriftHarmless(segs: seq<Segment>, level: nat, rejected: nat)
    requires level < 4 && AllStorable(segs)
  {
    forall u :: IsVersion(u) && TooSmallUpTo(u, segs, level) ==>
                  TotalLength(Widths(u), segs) > Capacity(u, level) + Drift(u, rejected)
  }

  /** With failed adds the choice is right exactly when the drift does no harm, which can be seen before it is made. */
  lemma ChoiceRightIff(v: int, segs: seq<Segment>, level: nat, rejected: nat)
    requires level < 4 && AllStorable(segs) && IsChoice(v, segs, level, rejected)
    ensures IsLeastFitting(v, segs, level) <==> DriftHarmless(segs, level, rejected)
    ensures Fits(v, segs, level) <==> DriftHarmless(segs, level, rejected)
  {
    hide TotalLength, Capacity, Widths;
    forall u | 1 <= u < v ensures !Fits(u, segs, level) {
      assert !SeemsToFit(u, segs, level, rejected);
    }
    if Fits(v, segs, level) {
      forall u | IsVersion(u) && TooSmallUpTo(u, segs, level)
        ensures TotalLength(Widths(u), segs) > Capacity(u, level) + Drift(u, rejected)
      {
        assert u < v;
        assert !SeemsToFit(u, segs, level, rejected);
      }
    } else {
      assert TooSmallUpTo(v, segs, level);
    }
  }

  lemma ChoiceUnique(u: int, v: int, segs: seq<Segment>, level: nat, rejected: nat)
    requires level < 4 && AllStorable(segs) && IsChoice(u, segs, level, rejected) && IsChoice(v, segs, level, rejected)
    ensures u == v
  {
    hide SeemsToFit;
  }

  /** Eight bytes at level H need version 2; after one failed add version 1 is taken, with room for 72 of 76 bits. */
  lemma DriftMisleads(bytes: seq<Octet>)
    requires |bytes| == 8
    ensures var segs := [Segment(EightBit, bytes)];
            AllStorable(segs) && IsChoice(1, segs, 3, 1) && !Fits(1, segs, 3) && IsLeastFitting(2, segs, 3)
  {
    var segs := [Segment(EightBit, bytes)];
    TotalOfOne(Widths(1), segs[0]);
    TotalOfOne(Widths(2), segs[0]);
    hide TotalLength;
    assert Capacity(1, 3) == 72 && Capacity(2, 3) == 128;
  }

  lemma TotalOfOne(w: CountWidths, s: Segment)
    requires s.Storable()
    ensures TotalLength(w, [s]) == EncodedLength(w, |s.data|, s.mode)
  {
    assert [s][..0] == [];
    assert TotalLength(w, []) == 0;
  }

  // ---- The corrections are exact ----

  /** Adding one segment moves the difference of the totals by the difference of its count widths. */
  lemma DeltaStep(w: CountWidths, wide: CountWidths, segs: seq<Segment>, s: Segment)
    requires AllStorable(segs) && s.Storable()
    ensures TotalLength(wide, segs + [s]) == TotalLength(wide, segs) + EncodedLength(wide, |s.data|, s.mode)
    ensures TotalLength(wide, segs + [s]) - TotalLength(w, segs + [s]) ==
            TotalLength(wide, segs) - TotalLength(w, segs) + wide.Of(s.mode) - w.Of(s.mode)
  {
    assert (segs + [s])[..|segs|] == segs;
  }

  lemma {:induction false} TotalNarrower(v: int, segs: seq<Segment>, k: nat)
    requires IsVersion(v) && AllStorable(segs) && k <= |segs|
    ensures TotalLength(Widths(v), segs[..k]) <= TotalLength(Widths(v), segs) <= TotalLength(Widths(MAX_VERSION), segs)
    decreases |segs|
  {
    if segs != [] {
      var front := segs[..|segs| - 1];
      if k < |segs| {
        TotalNarrower(v, front, k);
        assert front[..k] == segs[..k];
      } else {
        TotalNarrower(v, front, 0);
        assert segs[..k] == segs;
      }
    }
  }

  /** What a failed add over the characters of a numeric or alphanumeric segment leaves in the corrections. */
  lemma DriftOfOne(m: Mode)
    requires m == Numeric || m == Alnum
    ensures Widths(MAX_VERSION).Of(m) - Widths(VERPOINT1).Of(m) == 4
    ensures Widths(MAX_VERSION).Of(m) - Widths(VERPOINT2).Of(m) == 2
  {
  }

  /** The count widths of all versions that share a correction are the same. */
  lemma WidthsByRange(v: int)
    requires IsVersion(v)
    ensures v <= VERPOINT1 ==> Widths(v) == Widths(VERPOINT1)
    ensures VERPOINT1 < v <= VERPOINT2 ==> Widths(v) == Widths(VERPOINT2)
    ensures v > VERPOINT2 ==> Widths(v) == Widths(MAX_VERSION)
  {
  }

  /** What the finalizer's test of one version amounts to. */
  lemma TestMeans(v: int, segs: seq<Segment>, level: nat, rejected: nat, enclen: int, delta1: int, delta2: int)
    requires IsVersion(v) && level < 4 && AllStorable(segs)
    requires enclen == TotalLength(Widths(MAX_VERSION), segs)
    requires delta1 == TotalLength(Widths(MAX_VERSION), segs) - TotalLength(Widths(VERPOINT1), segs) + 4 * rejected
    requires delta2 == TotalLength(Widths(MAX_VERSION), segs) - TotalLength(Widths(VERPOINT2), segs) + 2 * rejected
    ensures Capacity(v, level) >= enclen - DeltaFor(v, delta1, delta2) <==> SeemsToFit(v, segs, level, rejected)
  {
    WidthsByRange(v);
    hide TotalLength, Widths, Capacity;
  }

  /** The largest version always fits: that is checked with every add. */
  lemma LargestFits(segs: seq<Segment>, level: nat, rejected: nat)
    requires level < 4 && AllStorable(segs) && TotalLength(Widths(MAX_VERSION), segs) <= Capacity(MAX_VERSION, level)
    ensures SeemsToFit(MAX_VERSION, segs, level, rejected)
  {
    hide TotalLength, Widths, Capacity;
  }
}
