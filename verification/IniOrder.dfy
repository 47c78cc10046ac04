/**
 When the order of the keys shows in an expanded configuration: a key that is set in the target beforehand and has another,
 plain text in the source changes its value when its turn comes, and a key that refers to it sees the one or the other.
 */
module IniOrder {
  import opened Options
  import opened IniExpand

  // ---- When it shows ----

  /** The value of the key changes when its turn comes. */
  predicate Changes(src: Config, preset: Config, key: string) {
    key in src && key in preset && Plain(src, key) && preset[key] != Visible(src[key])
  }

  /** A key that has to be expanded refers to one whose value changes. */
  predicate Clash(src: Config, preset: Config, key: string, other: string) {
    key in src && key !in preset && Refers(src, key, other) && Changes(src, preset, other)
  }

  /** Every key of the source, once. */
  ghost predicate IsOrder(src: Config, order: seq<string>) {
    && (forall k :: k in order <==> k in src)
    && (forall i, j :: 0 <= i < j < |order| ==> order[i] != order[j])
  }

  ghost predicate OrdersAgree(src: Config, preset: Config) {
    forall a, b :: IsOrder(src, a) && IsOrder(src, b) ==> PutAll(src, preset, a) == PutAll(src, preset, b)
  }

  /** The preset keys with some of the changes made. */
  ghost predicate IsVariant(src: Config, preset: Config, d: Config) {
    && d.Keys == preset.Keys
    && (forall k :: k in preset ==> d[k] == preset[k] || (Changes(src, preset, k) && d[k] == Visible(src[k])))
  }

  /** The source without the preset keys. */
  function Outside(src: Config, preset: Config): Config {
    map k | k in src && k !in preset :: src[k]
  }

  lemma OutsideAcyclic(src: Config, preset: Config, rank: string -> nat)
    requires Acyclic(src, rank)
    ensures Acyclic(Outside(src, preset), rank)
  {
    hide Pieces, Visible, RefersBy;
  }

  // ---- Values under a variant ----

  /** What all keys stand for while the preset keys have these values. */
  ghost function Values(src: Config, d: Config, rank: string -> nat): Config
    requires Acyclic(src, rank)
  {
    OutsideAcyclic(src, d, rank);
    Solution(Outside(src, d), d, rank)
  }

  /** Everything fits in a line, whichever changes have been made. */
  ghost predicate AlwaysShort(src: Config, preset: Config, rank: string -> nat)
    requires Acyclic(src, rank)
  {
    forall d :: IsVariant(src, preset, d) ==> Short(Values(src, d, rank))
  }

  lemma ValuesMean(src: Config, d: Config, rank: string -> nat)
    requires Acyclic(src, rank)
    ensures var v := Values(src, d, rank);
            && v.Keys == src.Keys + d.Keys && (forall k :: k in d ==> v[k] == d[k])
            && forall k :: k in src && k !in d ==> v[k] == Fill(k, Pieces(Visible(src[k])), v)
  {
    hide Pieces, Fill, Visible, Expand, Acyclic;
    OutsideAcyclic(src, d, rank);
    SolutionSolves(Outside(src, d), d, rank);
  }

  /** Two variants give a key the same value when nothing that they differ in is referred to up to its rank. */
  lemma {:induction false} SameValue(src: Config, preset: Config, rank: string -> nat, d: Config, e: Config, key: string)
    requires Acyclic(src, rank) && IsVariant(src, preset, d) && IsVariant(src, preset, e) && key in src && key !in preset
    requires forall j, k :: Clash(src, preset, j, k) && rank(j) <= rank(key) ==> d[k] == e[k]
    ensures key in Values(src, d, rank) && key in Values(src, e, rank)
    ensures Values(src, d, rank)[key] == Values(src, e, rank)[key]
    decreases rank(key)
  {
    hide *;
    VariantKeys(src, preset, d);
    VariantKeys(src, preset, e);
    ValuesMean(src, d, rank);
    ValuesMean(src, e, rank);
    var v, w, pieces := Values(src, d, rank), Values(src, e, rank), Pieces(Visible(src[key]));
    forall i | 0 <= i < |pieces| ensures Filled(key, pieces[i], v) == Filled(key, pieces[i], w) {
      SamePiece(src, preset, rank, d, e, key, i);
    }
    FillsAlike(key, pieces, v, w);
  }

  lemma {:induction false} SamePiece(src: Config, preset: Config, rank: string -> nat, d: Config, e: Config, key: string, i: nat)
    requires Acyclic(src, rank) && IsVariant(src, preset, d) && IsVariant(src, preset, e) && key in src && key !in preset
    requires forall j, k :: Clash(src, preset, j, k) && rank(j) <= rank(key) ==> d[k] == e[k]
    requires i < |Pieces(Visible(src[key]))|
    ensures Filled(key, Pieces(Visible(src[key]))[i], Values(src, d, rank)) == Filled(key, Pieces(Visible(src[key]))[i], Values(src, e, rank))
    decreases rank(key), 0
  {
    hide *;
    var piece := Pieces(Visible(src[key]))[i];
    var v, w := Values(src, d, rank), Values(src, e, rank);
    FilledMeans(key, piece, v, w);
    if piece.Ref? && piece.name != [] {
      var full := FullKey(key, piece.name);
      Lower(src, rank, key, i);
      ValuesMean(src, d, rank);
      ValuesMean(src, e, rank);
      VariantKeys(src, preset, d);
      VariantKeys(src, preset, e);
      if full in preset {
        ReferredBy(key, piece);
        ClashIs(src, preset, key, i, full);
      } else if full in src {
        SameValue(src, preset, rank, d, e, full);
      }
    }
  }

  lemma ReferredBy(key: string, piece: Piece)
    requires piece.Ref? && piece.name != []
    ensures RefersBy(key, piece, FullKey(key, piece.name))
  {
  }

  lemma FilledMeans(key: string, piece: Piece, v: Config, w: Config)
    ensures if piece.Ref? && piece.name != [] then
              && Filled(key, piece, v) == (if FullKey(key, piece.name) in v then v[FullKey(key, piece.name)] else [])
              && Filled(key, piece, w) == (if FullKey(key, piece.name) in w then w[FullKey(key, piece.name)] else [])
            else Filled(key, piece, v) == Filled(key, piece, w)
  {
    hide FullKey;
  }

  lemma ClashIs(src: Config, preset: Config, key: string, i: nat, full: string)
    requires key in src && key !in preset && i < |Pieces(Visible(src[key]))| && RefersBy(key, Pieces(Visible(src[key]))[i], full)
    ensures Changes(src, preset, full) ==> Clash(src, preset, key, full)
  {
    hide Changes, RefersBy, Pieces, Visible;
  }

  lemma VariantKeys(src: Config, preset: Config, d: Config)
    requires IsVariant(src, preset, d)
    ensures d.Keys == preset.Keys && Outside(src, d) == Outside(src, preset)
    ensures forall k :: k in preset && !Changes(src, preset, k) ==> d[k] == preset[k]
  {
    hide Changes, Visible;
  }

  // ---- Without a clash ----

  /** The value of a preset key so far, and that of any other key under the preset values. */
  ghost function SoFar(src: Config, preset: Config, rank: string -> nat, done: seq<string>, key: string): string
    requires Acyclic(src, rank) && (key in src || key in preset)
  {
    ValuesMean(src, preset, rank);
    if Changes(src, preset, key) && key in done then Visible(src[key]) else Values(src, preset, rank)[key]
  }

  lemma {:induction false} PutSoFar(src: Config, preset: Config, rank: string -> nat, order: seq<string>)
    requires Acyclic(src, rank) && AlwaysShort(src, preset, rank) && forall j, k :: !Clash(src, preset, j, k)
    requires forall k :: k in order ==> k in src
    ensures forall k :: k in PutAll(src, preset, order) <==> k in preset || k in order
    ensures forall k :: k in PutAll(src, preset, order) ==> PutAll(src, preset, order)[k] == SoFar(src, preset, rank, order, k)
  {
    hide *;
    if order == [] {
      NonePut(src, preset, order);
      forall k | k in preset ensures preset[k] == SoFar(src, preset, rank, order, k) {
        NothingSoFar(src, preset, rank, order, k);
      }
    } else {
      var n := |order| - 1;
      var front, key := order[..n], order[n];
      PutSoFar(src, preset, rank, front);
      assert order == front + [key] && order[..n + 1] == order;
      OnePut(src, preset, order, n);
      var dst := PutAll(src, preset, front);
      NextSoFar(src, preset, rank, front, key, dst);
      forall k | k in dst[key := SoFar(src, preset, rank, order, key)]
        ensures dst[key := SoFar(src, preset, rank, order, key)][k] == SoFar(src, preset, rank, order, k)
      {
        if k != key {
          SoFarKept(src, preset, rank, front, key, k);
        }
      }
    }
  }

  lemma NothingSoFar(src: Config, preset: Config, rank: string -> nat, done: seq<string>, key: string)
    requires Acyclic(src, rank) && key in preset && done == []
    ensures SoFar(src, preset, rank, done, key) == preset[key]
  {
    ValuesMean(src, preset, rank);
    hide Values, Acyclic;
  }

  lemma SoFarKept(src: Config, preset: Config, rank: string -> nat, front: seq<string>, key: string, k: string)
    requires Acyclic(src, rank) && (k in src || k in preset) && k != key
    ensures SoFar(src, preset, rank, front + [key], k) == SoFar(src, preset, rank, front, k)
  {
    hide Values, Acyclic, Changes, Visible;
  }

  /** One more key: what is put is its value so far. */
  lemma NextSoFar(src: Config, preset: Config, rank: string -> nat, front: seq<string>, key: string, dst: Config)
    requires Acyclic(src, rank) && AlwaysShort(src, preset, rank) && forall j, k :: !Clash(src, preset, j, k)
    requires key in src && forall k :: k in dst ==> k in preset || k in src
    requires forall k :: k in preset ==> k in dst
    requires forall k :: k in dst ==> dst[k] == SoFar(src, preset, rank, front, k)
    ensures Put(src, dst, key) == dst[key := SoFar(src, preset, rank, front + [key], key)]
  {
    hide *;
    var d := map k | k in preset :: dst[k];
    SoFarVariant(src, preset, rank, front, d);
    VariantKeys(src, preset, d);
    VariantShort(src, preset, rank, d);
    ValuesMean(src, d, rank);
    var v := Values(src, d, rank);
    forall k | k in dst ensures k in v && v[k] == dst[k] {
      SoFarValue(src, preset, rank, front, d, k);
    }
    AgreesIs(dst, v, src, d);
    PutGiven(src, dst, rank, v, key);
    PutIsSoFar(src, preset, rank, front, d, key);
  }

  lemma SoFarVariant(src: Config, preset: Config, rank: string -> nat, done: seq<string>, d: Config)
    requires Acyclic(src, rank) && d.Keys == preset.Keys && forall k :: k in preset ==> d[k] == SoFar(src, preset, rank, done, k)
    ensures IsVariant(src, preset, d)
  {
    ValuesMean(src, preset, rank);
    hide Values, Acyclic, Visible, Plain;
  }

  lemma VariantShort(src: Config, preset: Config, rank: string -> nat, d: Config)
    requires Acyclic(src, rank) && AlwaysShort(src, preset, rank) && IsVariant(src, preset, d)
    ensures Short(Values(src, d, rank))
  {
    hide Values, Acyclic, IsVariant, Short;
  }

  lemma PresetVariant(src: Config, preset: Config)
    ensures IsVariant(src, preset, preset)
  {
    hide Changes;
  }

  /** Under the values of now, a key stands for what it stood for from the start, unless it is preset. */
  lemma SoFarValue(src: Config, preset: Config, rank: string -> nat, done: seq<string>, d: Config, key: string)
    requires Acyclic(src, rank) && IsVariant(src, preset, d) && forall j, k :: !Clash(src, preset, j, k)
    requires key in src || key in preset
    requires forall k :: k in preset ==> k in d && d[k] == SoFar(src, preset, rank, done, k)
    ensures key in Values(src, d, rank) && Values(src, d, rank)[key] == SoFar(src, preset, rank, done, key)
  {
    PresetVariant(src, preset);
    VariantKeys(src, preset, d);
    ValuesMean(src, d, rank);
    ValuesMean(src, preset, rank);
    hide Clash, Values, Acyclic, Plain, Visible, IsVariant;
    if key !in preset {
      SameValue(src, preset, rank, d, preset, key);
    }
  }

  lemma AgreesIs(dst: Config, values: Config, src: Config, d: Config)
    requires forall k :: k in dst ==> k in values && values[k] == dst[k]
    requires values.Keys == src.Keys + d.Keys && forall k :: k in d ==> k in dst
    requires forall k :: k in src && k !in d ==> values[k] == Fill(k, Pieces(Visible(src[k])), values)
    ensures Agrees(dst, values, src) && SolvesOutside(values, src, dst)
  {
    hide Fill, Pieces, Visible;
  }

  lemma PutIsSoFar(src: Config, preset: Config, rank: string -> nat, front: seq<string>, d: Config, key: string)
    requires Acyclic(src, rank) && IsVariant(src, preset, d) && forall j, k :: !Clash(src, preset, j, k)
    requires key in src && forall k :: k in preset ==> k in d && d[k] == SoFar(src, preset, rank, front, k)
    ensures key in Values(src, d, rank)
    ensures SoFar(src, preset, rank, front + [key], key) == if Plain(src, key) then Visible(src[key]) else Values(src, d, rank)[key]
  {
    SoFarValue(src, preset, rank, front, d, key);
    VariantKeys(src, preset, d);
    ValuesMean(src, d, rank);
    ValuesMean(src, preset, rank);
    hide Clash, Values, Acyclic, Visible, IsVariant, Fill, Pieces, Plain;
    assert key in front + [key];
    if Plain(src, key) {
      PlainFill(src, Values(src, d, rank), key);
    }
  }

  // ---- With a clash ----

  /** The longer value of a key that is referred to makes the longer text. */
  lemma {:induction false} FillsLonger(key: string, pieces: seq<Piece>, other: string, v: Config, w: Config)
    requires other in v && other in w && |v[other]| > |w[other]|
    requires forall x :: x in pieces ==> RefersBy(key, x, other) || Filled(key, x, v) == Filled(key, x, w)
    ensures |Fill(key, pieces, v)| >= |Fill(key, pieces, w)|
    ensures (exists x :: x in pieces && RefersBy(key, x, other)) ==> |Fill(key, pieces, v)| > |Fill(key, pieces, w)|
  {
    if pieces != [] {
      FillsLonger(key, pieces[1..], other, v, w);
      ReferenceFilled(key, pieces[0], other, v, w);
      hide Filled, RefersBy;
      assert pieces == [pieces[0]] + pieces[1..];
    }
  }

  lemma ReferenceFilled(key: string, piece: Piece, other: string, v: Config, w: Config)
    requires other in v && other in w
    ensures RefersBy(key, piece, other) ==> Filled(key, piece, v) == v[other] && Filled(key, piece, w) == w[other]
  {
    hide FullKey;
  }

  /** Another value of a key that is referred to makes another text, when all else stays the same. */
  lemma {:induction false} FillsDiffer(key: string, pieces: seq<Piece>, other: string, v: Config, w: Config)
    requires other in v && other in w && v[other] != w[other]
    requires forall x :: x in pieces ==> RefersBy(key, x, other) || Filled(key, x, v) == Filled(key, x, w)
    requires exists x :: x in pieces && RefersBy(key, x, other)
    ensures Fill(key, pieces, v) != Fill(key, pieces, w)
  {
    if |v[other]| > |w[other]| {
      FillsLonger(key, pieces, other, v, w);
    } else if |v[other]| < |w[other]| {
      FillsLonger(key, pieces, other, w, v);
    } else {
      var first, more := pieces[0], pieces[1..];
      assert pieces == [first] + more;
      ReferenceFilled(key, first, other, v, w);
      FillFirst(key, first, more, v);
      FillFirst(key, first, more, w);
      hide Fill, Filled;
      var f, g := Filled(key, first, v), Filled(key, first, w);
      if RefersBy(key, first, other) {
        assert (f + Fill(key, more, v))[..|f|] == f && (g + Fill(key, more, w))[..|f|] == g;
      } else {
        FillsDiffer(key, more, other, v, w);
        assert (f + Fill(key, more, v))[|f|..] == Fill(key, more, v) && (g + Fill(key, more, w))[|f|..] == Fill(key, more, w);
      }
    }
  }

  /** Of a clash of the lowest rank, the key gets another value once the other one has changed. */
  lemma ClashDiffers(src: Config, preset: Config, rank: string -> nat, j: string, k: string)
    requires Acyclic(src, rank) && Clash(src, preset, j, k)
    requires forall x, y :: Clash(src, preset, x, y) ==> rank(x) >= rank(j)
    ensures k in preset && k in src
    ensures var d := preset[k := Visible(src[k])];
            j in Values(src, preset, rank) && j in Values(src, d, rank) && Values(src, preset, rank)[j] != Values(src, d, rank)[j]
  {
    hide *;
    ClashMeans(src, preset, j, k);
    var d := preset[k := Visible(src[k])];
    ChangedVariant(src, preset, k);
    PresetVariant(src, preset);
    VariantKeys(src, preset, d);
    ValuesMean(src, preset, rank);
    ValuesMean(src, d, rank);
    var v, w, pieces := Values(src, preset, rank), Values(src, d, rank), Pieces(Visible(src[j]));
    forall x | x in pieces ensures RefersBy(j, x, k) || Filled(j, x, v) == Filled(j, x, w) {
      var i :| 0 <= i < |pieces| && pieces[i] == x;
      OtherPiece(src, preset, rank, d, j, i, k);
    }
    FillsDiffer(j, pieces, k, v, w);
  }

  lemma ClashMeans(src: Config, preset: Config, j: string, k: string)
    requires Clash(src, preset, j, k)
    ensures j in src && j !in preset && k in src && k in preset && Plain(src, k) && preset[k] != Visible(src[k])
    ensures exists x :: x in Pieces(Visible(src[j])) && RefersBy(j, x, k)
    ensures Changes(src, preset, k)
  {
    hide Pieces, Visible, Plain, RefersBy;
    var i :| 0 <= i < |Pieces(Visible(src[j]))| && RefersBy(j, Pieces(Visible(src[j]))[i], k);
    assert Pieces(Visible(src[j]))[i] in Pieces(Visible(src[j]));
  }

  lemma ChangedVariant(src: Config, preset: Config, k: string)
    requires Changes(src, preset, k)
    ensures IsVariant(src, preset, preset[k := Visible(src[k])])
  {
    hide Visible, Plain;
    var d := preset[k := Visible(src[k])];
    assert d.Keys == preset.Keys;
  }

  /** A piece of the key that does not refer to the other one is the same under both. */
  lemma OtherPiece(src: Config, preset: Config, rank: string -> nat, d: Config, j: string, i: nat, k: string)
    requires Acyclic(src, rank) && j in src && j !in preset && i < |Pieces(Visible(src[j]))| && k in src && k in preset
    requires d == preset[k := Visible(src[k])] && IsVariant(src, preset, d) && IsVariant(src, preset, preset)
    requires forall x, y :: Clash(src, preset, x, y) ==> rank(x) >= rank(j)
    ensures var piece := Pieces(Visible(src[j]))[i];
            RefersBy(j, piece, k) || Filled(j, piece, Values(src, preset, rank)) == Filled(j, piece, Values(src, d, rank))
  {
    hide *;
    var piece := Pieces(Visible(src[j]))[i];
    var v, w := Values(src, preset, rank), Values(src, d, rank);
    FilledMeans(j, piece, v, w);
    if piece.Ref? && piece.name != [] {
      var full := FullKey(j, piece.name);
      ReferredBy(j, piece);
      Lower(src, rank, j, i);
      ValuesMean(src, preset, rank);
      ValuesMean(src, d, rank);
      if full in src && full !in preset {
        SameValue(src, preset, rank, preset, d, full);
      }
    }
  }

  /** A value that had to be expanded stays once it is there. */
  lemma {:induction false} PutKeeps(src: Config, dst: Config, order: seq<string>, key: string)
    requires key in src && !Plain(src, key) && key in dst && |dst[key]| <= LINE_SIZE
    ensures key in PutAll(src, dst, order) && PutAll(src, dst, order)[key] == dst[key]
  {
    if order != [] {
      PutKeeps(src, dst, order[..|order| - 1], key);
      hide Visible, IndexOf, PutAll;
      OnePut(src, dst, order, |order| - 1);
      assert order[..|order|] == order;
      FinalUnfolds(src, PutAll(src, dst, order[..|order| - 1]), key);
      hide Final;
    }
  }

  lemma {:induction false} PutBoth(src: Config, dst: Config, a: seq<string>, b: seq<string>)
    ensures PutAll(src, dst, a + b) == PutAll(src, PutAll(src, dst, a), b)
  {
    hide Put;
    if b == [] {
      assert a + b == a;
    } else {
      PutBoth(src, dst, a, b[..|b| - 1]);
      assert (a + b)[..|a + b| - 1] == a + b[..|b| - 1];
    }
  }

  lemma PutOne(src: Config, dst: Config, key: string)
    ensures PutAll(src, dst, [key]) == Put(src, dst, key)
  {
    hide Put;
    var order := [key];
    NonePut(src, dst, order[..0]);
    OnePut(src, dst, order, 0);
    assert order[..1] == order;
  }

  /** A key with a reference is not plain. */
  lemma RefersNotPlain(src: Config, key: string, x: Piece)
    requires key in src && x in Pieces(Visible(src[key])) && x.Ref?
    ensures !Plain(src, key)
  {
    hide Length;
    if Plain(src, key) {
      AllText(Visible(src[key]));
    }
  }

  lemma {:induction false} AllText(value: string)
    requires '{' !in value
    ensures forall x :: x in Pieces(value) ==> x.Text?
  {
    if value != [] {
      AllText(value[1..]);
    }
  }

  /** The key comes out as it stands for under the values there are when its turn comes. */
  lemma ComesOut(src: Config, preset: Config, rank: string -> nat, d: Config, j: string, rest: seq<string>)
    requires Acyclic(src, rank) && AlwaysShort(src, preset, rank) && IsVariant(src, preset, d)
    requires j in src && j !in preset && !Plain(src, j)
    ensures j in Values(src, d, rank)
    ensures var r := PutAll(src, d, [j] + rest); j in r && r[j] == Values(src, d, rank)[j]
  {
    hide *;
    VariantKeys(src, preset, d);
    VariantShort(src, preset, rank, d);
    ValuesMean(src, d, rank);
    var v := Values(src, d, rank);
    AgreesIs(d, v, src, d);
    PutGiven(src, d, rank, v, j);
    ShortAt(v, j);
    PutOne(src, d, j);
    PutBoth(src, d, [j], rest);
    PutKeeps(src, d[j := v[j]], rest, j);
  }

  lemma ShortAt(values: Config, key: string)
    requires Short(values) && key in values
    ensures |values[key]| <= LINE_SIZE
  {
  }

  /** The keys of a set, one after the other. */
  lemma {:induction false} Listing(keys: set<string>) returns (order: seq<string>)
    ensures forall k :: k in order <==> k in keys
    ensures forall i, j :: 0 <= i < j < |order| ==> order[i] != order[j]
  {
    if keys == {} {
      order := [];
    } else {
      var k :| k in keys;
      order := Listing(keys - {k});
      order := order + [k];
    }
  }

  lemma TwoFirst(src: Config, rest: seq<string>, j: string, k: string)
    requires j in src && k in src && j != k && forall i, l :: 0 <= i < l < |rest| ==> rest[i] != rest[l]
    requires forall x :: x in rest <==> x in src && x != j && x != k
    ensures IsOrder(src, [j] + ([k] + rest))
  {
    var order := [j] + ([k] + rest);
    assert forall x :: x in order <==> x == j || x == k || x in rest;
  }

  lemma {:induction false} ClashDisagrees(src: Config, preset: Config, rank: string -> nat, j: string, k: string)
    requires Acyclic(src, rank) && AlwaysShort(src, preset, rank) && Clash(src, preset, j, k)
    ensures !OrdersAgree(src, preset)
    decreases rank(j)
  {
    hide *;
    if x, y :| Clash(src, preset, x, y) && rank(x) < rank(j) {
      ClashDisagrees(src, preset, rank, x, y);
    } else {
      ClashDiffers(src, preset, rank, j, k);
      ClashMeans(src, preset, j, k);
      ReferrerNotPlain(src, j, k);
      var d := preset[k := Visible(src[k])];
      var rest := Listing(src.Keys - {j, k});
      TwoFirst(src, rest, j, k);
      TwoFirst(src, rest, k, j);
      PresetVariant(src, preset);
      ChangedVariant(src, preset, k);
      ComesOut(src, preset, rank, preset, j, [k] + rest);
      PutBoth(src, preset, [k], [j] + rest);
      PutOne(src, preset, k);
      PutPlain(src, preset, k);
      ComesOut(src, preset, rank, d, j, rest);
      Disagree(src, preset, [j] + ([k] + rest), [k] + ([j] + rest), j);
    }
  }

  lemma ReferrerNotPlain(src: Config, j: string, k: string)
    requires j in src && exists x :: x in Pieces(Visible(src[j])) && RefersBy(j, x, k)
    ensures !Plain(src, j)
  {
    hide Pieces, Visible, FullKey, Plain;
    var x :| x in Pieces(Visible(src[j])) && RefersBy(j, x, k);
    RefersNotPlain(src, j, x);
  }

  lemma PutPlain(src: Config, dst: Config, k: string)
    requires k in src && Plain(src, k)
    ensures Put(src, dst, k) == dst[k := Visible(src[k])]
  {
    hide Final, Visible;
  }

  lemma Disagree(src: Config, preset: Config, a: seq<string>, b: seq<string>, key: string)
    requires IsOrder(src, a) && IsOrder(src, b)
    requires key in PutAll(src, preset, a) && key in PutAll(src, preset, b) && PutAll(src, preset, a)[key] != PutAll(src, preset, b)[key]
    ensures !OrdersAgree(src, preset)
  {
    hide PutAll, IsOrder;
  }

  // ---- Exactly then ----

  /** All orders of the keys give the same target exactly when there is no clash; both maps show whether there is. */
  lemma OrderShowsIff(src: Config, preset: Config, rank: string -> nat)
    requires Acyclic(src, rank) && AlwaysShort(src, preset, rank)
    ensures OrdersAgree(src, preset) <==> forall j, k :: !Clash(src, preset, j, k)
  {
    hide *;
    if j, k :| Clash(src, preset, j, k) {
      ClashDisagrees(src, preset, rank, j, k);
    } else {
      forall a, b | IsOrder(src, a) && IsOrder(src, b) ensures PutAll(src, preset, a) == PutAll(src, preset, b) {
        SameTarget(src, preset, rank, a, b);
      }
      AgreeIs(src, preset);
    }
  }

  lemma SameTarget(src: Config, preset: Config, rank: string -> nat, a: seq<string>, b: seq<string>)
    requires Acyclic(src, rank) && AlwaysShort(src, preset, rank) && forall j, k :: !Clash(src, preset, j, k)
    requires IsOrder(src, a) && IsOrder(src, b)
    ensures PutAll(src, preset, a) == PutAll(src, preset, b)
  {
    hide *;
    OrderMeans(src, a);
    OrderMeans(src, b);
    PutSoFar(src, preset, rank, a);
    PutSoFar(src, preset, rank, b);
    var r, s := PutAll(src, preset, a), PutAll(src, preset, b);
    forall k | k in r ensures k in s && r[k] == s[k] {
      SoFarAlike(src, preset, rank, a, b, k);
    }
    assert r.Keys == s.Keys;
  }

  lemma OrderMeans(src: Config, order: seq<string>)
    requires IsOrder(src, order)
    ensures forall k :: k in order <==> k in src
  {
  }

  lemma SoFarAlike(src: Config, preset: Config, rank: string -> nat, a: seq<string>, b: seq<string>, key: string)
    requires Acyclic(src, rank) && (key in src || key in preset) && (key in a <==> key in b)
    ensures SoFar(src, preset, rank, a, key) == SoFar(src, preset, rank, b, key)
  {
    hide Acyclic, Values, Changes, Visible;
  }

  lemma AgreeIs(src: Config, preset: Config)
    requires forall a, b :: IsOrder(src, a) && IsOrder(src, b) ==> PutAll(src, preset, a) == PutAll(src, preset, b)
    ensures OrdersAgree(src, preset)
  {
    hide PutAll, IsOrder;
  }
}
