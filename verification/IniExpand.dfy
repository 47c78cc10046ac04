/**
 Expansion of references like `{name}`, `{:name}` and `{section:name}` in the values of a configuration. While a
 reference is looked up, the `}` that ends it is overwritten with the end of the string, so a value that refers to
 itself is read only up to there.
 */
module IniExpand {
  import opened Options

  const LINE_SIZE := 255
  const FULL_KEY := 127

  type Config = map<string, string>

  // ---- Strings ----

  /** The length of a string up to its terminator. */
  function Length(s: string): (n: nat)
    ensures n <= |s|
    ensures forall i :: 0 <= i < n ==> s[i] != '\0'
    ensures n < |s| ==> s[n] == '\0'
  {
    if s == [] || s[0] == '\0' then 0 else 1 + Length(s[1..])
  }

  function Visible(s: string): string {
    s[..Length(s)]
  }

  /** Where a character is first, or the length of the string. */
  function IndexOf(s: string, c: char): (n: nat)
    ensures n <= |s|
    ensures forall i :: 0 <= i < n ==> s[i] != c
    ensures n < |s| ==> s[n] == c
  {
    if s == [] || s[0] == c then 0 else 1 + IndexOf(s[1..], c)
  }

  lemma IndexIs(s: string, c: char, n: nat)
    requires n < |s| && s[n] == c && forall i :: 0 <= i < n ==> s[i] != c
    ensures IndexOf(s, c) == n
  {
  }

  /** What fits in a buffer of one line. */
  function Copied(s: string): (r: string)
    ensures r <= s && |r| == if |s| > 255 then 255 else |s|
  {
    if |s| > LINE_SIZE then s[..LINE_SIZE] else s
  }

  /** What fits in a buffer of a key: the first characters. */
  function Kept(s: string): (r: string)
    ensures r <= s && |r| == if |s| > 127 then 127 else |s|
  {
    if |s| > FULL_KEY then s[..FULL_KEY] else s
  }

  /** The key that a reference means: of the same section, of the section of variables, or as it stands. */
  function FullKey(key: string, name: string): string
    requires name != []
  {
    Kept(if name[0] == ':' then key[..IndexOf(key, ':')] + name else if ':' in name then name else "var:" + name)
  }

  /** `{:name}` stays in the section of the key, `{section:name}` says its own, and `{name}` is a variable. */
  lemma ReferencesMean(section: string, key: string, name: string)
    requires ':' !in section && ':' !in name && name != []
    ensures FullKey(section + ":" + key, ":" + name) == FullKey(section, ":" + name) == Kept(section + ":" + name)
    ensures section != [] ==> FullKey(key, section + ":" + name) == Kept(section + ":" + name)
    ensures FullKey(key, name) == Kept("var" + ":" + name)
  {
    var full := section + ":" + key;
    assert full[|section|] == ':' && forall i :: 0 <= i < |section| ==> full[i] != ':' by {
      forall i | 0 <= i < |section| ensures full[i] != ':' {
        assert full[i] == section[i] && section[i] in section;
      }
    }
    IndexIs(full, ':', |section|);
    NoIndex(section, ':');
    assert full[..|section|] == section == section[..|section|];
    Together(section, ":", name);
    assert name[0] in name;
    assert "var:" + name == "var" + ":" + name;
    if section != [] {
      assert (section + ":" + name)[0] == section[0] && section[0] in section;
      assert (section + ":" + name)[|section|] == ':';
    }
  }

  lemma Together(a: string, b: string, c: string)
    ensures a + b + c == a + (b + c)
  {
  }

  lemma {:induction false} NoIndex(s: string, c: char)
    requires c !in s
    ensures IndexOf(s, c) == |s|
  {
    if s != [] {
      assert s[0] in s;
      NoIndex(s[1..], c);
    }
  }

  // ---- What the expansion computes ----

  /** The `}` that can be seen. */
  function Closers(src: Config): set<(string, nat)> {
    set k, i | k in src && 0 <= i < Length(src[k]) && src[k][i] == '}' :: (k, i)
  }

  /** The value of a key cut off at a place. */
  function Hidden(src: Config, key: string, p: nat): Config
    requires key in src && p < |src[key]|
  {
    src[key := src[key][p := '\0']]
  }

  lemma {:induction false} LengthHidden(s: string, p: nat)
    requires p < Length(s)
    ensures Length(s[p := '\0']) == p
  {
    if p > 0 {
      LengthHidden(s[1..], p - 1);
      assert s[p := '\0'][1..] == s[1..][p - 1 := '\0'];
    }
  }

  lemma FewerClosers(src: Config, key: string, p: nat)
    requires key in src && p < Length(src[key]) && src[key][p] == '}'
    ensures Closers(Hidden(src, key, p)) < Closers(src)
  {
    hide Length;
    LengthHidden(src[key], p);
    var now := Hidden(src, key, p);
    forall c | c in Closers(now) ensures c in Closers(src) {
      assert c.0 == key ==> now[key][c.1] == src[key][c.1];
    }
    assert (key, p) in Closers(src) && (key, p) !in Closers(now);
  }

  /** The value of a key with its references replaced; what is known already is taken as it is. */
  function Final(src: Config, dst: Config, key: string): (r: Option<string>)
    decreases Closers(src), if key in src then |src[key]| + 1 else 0
  {
    if key in dst then Some(Copied(dst[key]))
    else if key !in src then None
    else
      var value := src[key];
      var i := IndexOf(Visible(value), '{');
      if i == Length(value) then Some(Copied(Visible(value)))
      else Some(Scan(src, dst, key, i + 1, Some(i + 1), value[..i]))
  }

  /** The rest of a value from a place on, inside a reference that began at pk or outside of any. */
  function Scan(src: Config, dst: Config, key: string, p0: nat, pk: Option<nat>, out: string): string
    requires key in src && p0 <= Length(src[key]) && (pk.Some? ==> pk.value <= p0)
    decreases Closers(src), |src[key]| - p0
  {
    var value := src[key];
    if p0 == Length(value) then out
    else if pk.None? then
      if value[p0] == '{' then Scan(src, dst, key, p0 + 1, Some(p0 + 1), out)
      else if |out| + 1 >= LINE_SIZE then out + [value[p0]]
      else Scan(src, dst, key, p0 + 1, None, out + [value[p0]])
    else if value[p0] != '}' then Scan(src, dst, key, p0 + 1, pk, out)
    else if pk.value == p0 then Scan(src, dst, key, p0 + 1, None, out)
    else
      FewerClosers(src, key, p0);
      var r := Final(Hidden(src, key, p0), dst, FullKey(key, value[pk.value..p0]));
      if r.None? then Scan(src, dst, key, p0 + 1, None, out)
      else if |out| + |r.value| > LINE_SIZE then out
      else Scan(src, dst, key, p0 + 1, None, out + r.value)
  }

  // ---- How it is computed ----

  class StrMap {
    var entries: Config
  }

  /** It ends for every source, with cycles or not, and leaves the source as it was. */
  method GetFinalValue(src: StrMap, dst: StrMap, key: string) returns (newval: Option<string>)
    requires src != dst
    modifies src
    ensures src.entries == old(src.entries)
    ensures newval == Final(src.entries, dst.entries, key)
    decreases Closers(src.entries)
  {
    if key in dst.entries {
      return Some(Copied(dst.entries[key]));
    }
    if key !in src.entries {
      return None;
    }
    ghost var was := src.entries;
    var p0 := IndexOf(Visible(src.entries[key]), '{');
    if p0 == Length(src.entries[key]) {
      return Some(Copied(Visible(src.entries[key])));
    }
    var out := src.entries[key][..p0];
    p0 := p0 + 1;
    var pk: Option<nat> := Some(p0);
    while p0 < Length(src.entries[key])
      invariant src.entries == was && p0 <= Length(was[key]) && (pk.Some? ==> pk.value <= p0)
      invariant Final(was, dst.entries, key) == Some(Scan(was, dst.entries, key, p0, pk, out))
      decreases Length(was[key]) - p0
    {
      var c := src.entries[key][p0];
      if pk.None? {
        if c == '{' {
          pk := Some(p0 + 1);
        } else {
          out := out + [c];
          if |out| >= LINE_SIZE {
            break;
          }
        }
      } else if c == '}' {
        if p0 > pk.value {
          FewerClosers(was, key, p0);
          var full := FullKey(key, src.entries[key][pk.value..p0]);
          src.entries := src.entries[key := src.entries[key][p0 := '\0']];
          var tmpval := GetFinalValue(src, dst, full);
          src.entries := src.entries[key := src.entries[key][p0 := '}']];
          Restored(was, key, p0);
          if tmpval.Some? {
            if |out| + |tmpval.value| > LINE_SIZE {
              break;
            }
            out := out + tmpval.value;
          }
        }
        pk := None;
      }
      p0 := p0 + 1;
    }
    newval := Some(out);
  }

  lemma Restored(src: Config, key: string, p: nat)
    requires key in src && p < |src[key]| && src[key][p] == '}'
    ensures Hidden(src, key, p)[key := Hidden(src, key, p)[key][p := '}']] == src
  {
    assert src[key][p := '\0'][p := '}'] == src[key];
  }

  // ---- What a value means ----

  datatype Piece = Text(c: char) | Ref(name: string)

  /** The text of a value and its references; a reference that is not closed is nothing, and neither is an empty one. */
  function Pieces(value: string): seq<Piece> {
    if value == [] then []
    else if value[0] != '{' then [Text(value[0])] + Pieces(value[1..])
    else
      var n := IndexOf(value[1..], '}');
      if n == |value| - 1 then []
      else (if n == 0 then [] else [Ref(value[1..n + 1])]) + Pieces(value[n + 2..])
  }

  /** A piece, with what the keys stand for. */
  function Filled(key: string, piece: Piece, values: Config): string {
    match piece
    case Text(c) => [c]
    case Ref(name) =>
      if name == [] then []
      else
        var full := FullKey(key, name);
        if full in values then values[full] else []
  }

  function Fill(key: string, pieces: seq<Piece>, values: Config): string {
    if pieces == [] then [] else Filled(key, pieces[0], values) + Fill(key, pieces[1..], values)
  }

  /** The keys that the value of a key refers to. */
  predicate Refers(src: Config, key: string, other: string)
    requires key in src
  {
    exists i :: 0 <= i < |Pieces(Visible(src[key]))| && RefersBy(key, Pieces(Visible(src[key]))[i], other)
  }

  predicate RefersBy(key: string, piece: Piece, other: string) {
    piece.Ref? && piece.name != [] && FullKey(key, piece.name) == other
  }

  /** No value refers to itself, however far around. */
  ghost predicate Acyclic(src: Config, rank: string -> nat) {
    forall k, other :: k in src && other in src && Refers(src, k, other) ==> rank(other) < rank(k)
  }

  /** Every value is the text of the source with every reference replaced by the value that it stands for. */
  ghost predicate Solves(values: Config, src: Config) {
    forall k :: k in src ==> k in values && values[k] == Fill(k, Pieces(Visible(src[k])), values)
  }

  ghost predicate Short(values: Config) {
    forall k :: k in values ==> |values[k]| < LINE_SIZE
  }

  // ---- There is one solution ----

  ghost function Expand(src: Config, preset: Config, rank: string -> nat, key: string): string
    requires key in src && Acyclic(src, rank)
    decreases rank(key), 1, 0
  {
    ExpandAll(src, preset, rank, key, Pieces(Visible(src[key])), 0)
  }

  ghost function ExpandAll(src: Config, preset: Config, rank: string -> nat, key: string, pieces: seq<Piece>, i: nat): string
    requires key in src && Acyclic(src, rank) && pieces == Pieces(Visible(src[key])) && i <= |pieces|
    decreases rank(key), 0, |pieces| - i
  {
    if i == |pieces| then []
    else
      ExpandPiece(src, preset, rank, key, pieces, i) + ExpandAll(src, preset, rank, key, pieces, i + 1)
  }

  ghost function ExpandPiece(src: Config, preset: Config, rank: string -> nat, key: string, pieces: seq<Piece>, i: nat): string
    requires key in src && Acyclic(src, rank) && pieces == Pieces(Visible(src[key])) && i < |pieces|
    decreases rank(key), 0, 0
  {
    match pieces[i]
    case Text(c) => [c]
    case Ref(name) =>
      if name == [] then []
      else
        var full := FullKey(key, name);
        if full in src then
          Lower(src, rank, key, i);
          Expand(src, preset, rank, full)
        else if full in preset then preset[full] else []
  }

  ghost function Solution(src: Config, preset: Config, rank: string -> nat): Config
    requires Acyclic(src, rank)
  {
    preset + map k | k in src :: Expand(src, preset, rank, k)
  }

  lemma SolutionSolves(src: Config, preset: Config, rank: string -> nat)
    requires Acyclic(src, rank)
    ensures Solves(Solution(src, preset, rank), src)
    ensures forall k :: k in preset && k !in src ==> Solution(src, preset, rank)[k] == preset[k]
    ensures Solution(src, preset, rank).Keys == src.Keys + preset.Keys
  {
    hide Acyclic, Pieces;
    forall k | k in src ensures Expand(src, preset, rank, k) == Fill(k, Pieces(Visible(src[k])), Solution(src, preset, rank)) {
      ExpandsToFill(src, preset, rank, k, Pieces(Visible(src[k])), 0);
    }
  }

  lemma {:induction false} ExpandsToFill(src: Config, preset: Config, rank: string -> nat, key: string, pieces: seq<Piece>, i: nat)
    requires key in src && Acyclic(src, rank) && pieces == Pieces(Visible(src[key])) && i <= |pieces|
    ensures ExpandAll(src, preset, rank, key, pieces, i) == Fill(key, pieces[i..], Solution(src, preset, rank))
    decreases |pieces| - i
  {
    hide Acyclic, Pieces, Expand;
    if i < |pieces| {
      ExpandsToFill(src, preset, rank, key, pieces, i + 1);
      assert pieces[i..][1..] == pieces[i + 1..];
    }
  }

  lemma Lower(src: Config, rank: string -> nat, key: string, i: nat)
    requires Acyclic(src, rank) && key in src && i < |Pieces(Visible(src[key]))|
    ensures var piece := Pieces(Visible(src[key]))[i];
            piece.Ref? && piece.name != [] && FullKey(key, piece.name) in src ==> rank(FullKey(key, piece.name)) < rank(key)
  {
    hide FullKey, Pieces;
    var piece := Pieces(Visible(src[key]))[i];
    if piece.Ref? && piece.name != [] {
      assert RefersBy(key, piece, FullKey(key, piece.name));
    }
  }

  lemma {:induction false} SolutionIsUnique(src: Config, rank: string -> nat, v: Config, w: Config, key: string)
    requires Acyclic(src, rank) && Solves(v, src) && Solves(w, src) && key in src
    requires v.Keys == w.Keys && forall k :: k in v && k !in src ==> v[k] == w[k]
    ensures v[key] == w[key]
    decreases rank(key)
  {
    var pieces := Pieces(Visible(src[key]));
    hide Pieces, FullKey, Fill, Acyclic;
    forall i | 0 <= i < |pieces| ensures Filled(key, pieces[i], v) == Filled(key, pieces[i], w) {
      Lower(src, rank, key, i);
      if pieces[i].Ref? && pieces[i].name != [] {
        var full := FullKey(key, pieces[i].name);
        if full in src {
          SolutionIsUnique(src, rank, v, w, full);
        }
      }
    }
    FillsAlike(key, pieces, v, w);
  }

  lemma {:induction false} FillsAlike(key: string, pieces: seq<Piece>, v: Config, w: Config)
    requires forall i :: 0 <= i < |pieces| ==> Filled(key, pieces[i], v) == Filled(key, pieces[i], w)
    ensures Fill(key, pieces, v) == Fill(key, pieces, w)
  {
    if pieces != [] {
      FillsAlike(key, pieces[1..], v, w);
    }
  }

  // ---- The expansion finds it ----

  /** What is known of the target is part of the solution. */
  ghost predicate Agrees(dst: Config, values: Config, src: Config) {
    && (forall k :: k in dst ==> k in values && values[k] == dst[k])
    && (forall k :: k in values ==> k in src || k in dst)
    && (forall k :: k in src ==> k in values)
  }

  predicate RanksBelow(src: Config, rank: string -> nat, key: string, piece: Piece) {
    piece.Ref? && piece.name != [] && FullKey(key, piece.name) in src ==> rank(FullKey(key, piece.name)) < rank(key)
  }

  predicate AllBelow(src: Config, rank: string -> nat, key: string, pieces: seq<Piece>) {
    forall x :: x in pieces ==> RanksBelow(src, rank, key, x)
  }

  /** The solution of what is not known yet, as far as a rank goes. */
  ghost predicate SolvesUpTo(values: Config, src: Config, dst: Config, rank: string -> nat, top: nat) {
    forall k :: k in src && k !in dst && rank(k) <= top ==>
                  k in values && values[k] == Fill(k, Pieces(Visible(src[k])), values) && AllBelow(src, rank, k, Pieces(Visible(src[k])))
  }

  ghost predicate Ready(values: Config, src: Config, dst: Config, rank: string -> nat, key: string) {
    && Agrees(dst, values, src) && Short(values)
    && (key in src ==> SolvesUpTo(values, src, dst, rank, rank(key)))
  }

  /** How far a lookup can go down. */
  ghost function Level(src: Config, rank: string -> nat, key: string): nat {
    if key in src then rank(key) + 1 else 0
  }

  /** The pieces that a scan still has to go through. */
  ghost function Rest(value: string, p0: nat, pk: Option<nat>): seq<Piece>
    requires p0 <= |value| && (pk.Some? ==> 0 < pk.value <= p0)
  {
    if pk.Some? then Pieces(value[pk.value - 1..]) else Pieces(value[p0..])
  }

  ghost predicate InReference(value: string, p0: nat, pk: Option<nat>) {
    && p0 <= |value|
    && (pk.Some? ==> 0 < pk.value <= p0 && value[pk.value - 1] == '{' && forall i :: pk.value <= i < p0 ==> value[i] != '}')
  }

  lemma {:induction false} FinalSolves(values: Config, src: Config, dst: Config, rank: string -> nat, key: string)
    requires Ready(values, src, dst, rank, key)
    ensures Final(src, dst, key) == if key in values then Some(values[key]) else None
    decreases Level(src, rank, key), if key in src then |src[key]| + 1 else 0
  {
    hide *;
    ReadyMeans(values, src, dst, rank, key);
    FinalUnfolds(src, dst, key);
    if key in src && key !in dst {
      var value := Visible(src[key]);
      var i := IndexOf(value, '{');
      VisibleIs(src[key]);
      TextFirst(key, value, i, values);
      if i < |value| {
        BelowAlike(src, rank, key, Pieces(value), Pieces(value[i..]));
        ReferenceBegins(value, i);
        ScanSolves(values, src, dst, rank, key, i + 1, Some(i + 1), value[..i]);
      } else {
        NoPieces(key, values);
        assert value[i..] == [] && value[..i] == value;
        assert value + [] == value;
      }
    }
  }

  lemma {:induction false} ScanSolves(values: Config, src: Config, dst: Config, rank: string -> nat, key: string,
                                      p0: nat, pk: Option<nat>, out: string)
    requires Ready(values, src, dst, rank, key) && key in src && key in values && key !in dst
    requires |Visible(src[key])| == Length(src[key]) && InReference(Visible(src[key]), p0, pk)
    requires p0 <= |Visible(src[key])| && (pk.Some? ==> 0 < pk.value <= p0)
    requires out + Fill(key, Rest(Visible(src[key]), p0, pk), values) == values[key]
    requires AllBelow(src, rank, key, Rest(Visible(src[key]), p0, pk))
    ensures Scan(src, dst, key, p0, pk, out) == values[key]
    decreases Level(src, rank, key), |src[key]| - p0
  {
    hide *;
    var value := Visible(src[key]);
    VisibleIs(src[key]);
    ReadyMeans(values, src, dst, rank, key);
    ScanUnfolds(src, dst, key, p0, pk, out);
    RestUnfolds(src, rank, key, value, p0, pk, values);
    if p0 < |value| {
      if pk.None? || value[p0] != '}' || pk.value == p0 {
        var c := value[p0];
        var next: Option<nat> :=
          if pk.Some? && c != '}' then pk else if pk.None? && c == '{' then Some(p0 + 1) else None;
        ScanSolves(values, src, dst, rank, key, p0 + 1, next, if pk.None? && c != '{' then out + [c] else out);
      } else {
        var full := FullKey(key, value[pk.value..p0]);
        var hidden := Hidden(src, key, p0);
        ReferenceMeans(src, rank, key, value[pk.value..p0], values);
        ReadyHidden(values, src, dst, rank, key, p0, full);
        FinalSolves(values, hidden, dst, rank, full);
        var r := if full in values then values[full] else [];
        Reassociate(out, r, Fill(key, Rest(value, p0 + 1, None), values));
        ScanSolves(values, src, dst, rank, key, p0 + 1, None, out + r);
      }
    }
  }

  lemma ReadyMeans(values: Config, src: Config, dst: Config, rank: string -> nat, key: string)
    requires Ready(values, src, dst, rank, key)
    ensures key in dst ==> key in values && values[key] == dst[key]
    ensures key in values <==> key in src || key in dst
    ensures key in values ==> |values[key]| < LINE_SIZE == 255
    ensures key in src && key !in dst ==>
              values[key] == Fill(key, Pieces(Visible(src[key])), values) && AllBelow(src, rank, key, Pieces(Visible(src[key])))
  {
    hide Fill, Pieces, Visible, AllBelow;
  }

  lemma FinalUnfolds(src: Config, dst: Config, key: string)
    ensures key in dst && |dst[key]| <= 255 ==> Final(src, dst, key) == Some(dst[key])
    ensures key !in dst && key !in src ==> Final(src, dst, key) == None
    ensures key !in dst && key in src ==>
              var i := IndexOf(Visible(src[key]), '{');
              if i == |Visible(src[key])| then |Visible(src[key])| <= 255 ==> Final(src, dst, key) == Some(Visible(src[key]))
              else Final(src, dst, key) == Some(Scan(src, dst, key, i + 1, Some(i + 1), Visible(src[key])[..i]))
  {
    hide Scan;
    if key in src {
      var i := IndexOf(Visible(src[key]), '{');
      assert Visible(src[key])[..i] == src[key][..i];
    }
  }

  lemma VisibleIs(s: string)
    ensures |Visible(s)| == Length(s) <= |s|
    ensures forall i :: 0 <= i < Length(s) ==> Visible(s)[i] == s[i]
    ensures forall i, j :: 0 <= i <= j <= Length(s) ==> Visible(s)[i..j] == s[i..j]
  {
    hide Length;
  }

  /** What comes before the first reference stays as it is. */
  lemma {:induction false} TextFirst(key: string, value: string, i: nat, values: Config)
    requires i <= |value| && forall k :: 0 <= k < i ==> value[k] != '{'
    ensures Fill(key, Pieces(value), values) == value[..i] + Fill(key, Pieces(value[i..]), values)
    ensures forall x :: x in Pieces(value[i..]) ==> x in Pieces(value)
  {
    if i == 0 {
      assert value[0..] == value;
    } else {
      var first, more := Text(value[0]), Pieces(value[1..]);
      assert Pieces(value) == [first] + more;
      hide *;
      TextFirst(key, value[1..], i - 1, values);
      assert value[1..][i - 1..] == value[i..];
      FillFirst(key, first, more, values);
      TextFilled(key, value[0], values);
      Prefixed(value, i, Fill(key, Pieces(value[i..]), values));
    }
  }

  lemma TextFilled(key: string, c: char, values: Config)
    ensures Filled(key, Text(c), values) == [c]
  {
  }

  lemma Prefixed(value: string, i: nat, rest: string)
    requires 0 < i <= |value|
    ensures [value[0]] + (value[1..][..i - 1] + rest) == value[..i] + rest
  {
  }

  lemma FillFirst(key: string, first: Piece, others: seq<Piece>, values: Config)
    ensures Fill(key, [first] + others, values) == Filled(key, first, values) + Fill(key, others, values)
  {
    assert ([first] + others)[1..] == others;
  }

  lemma NoPieces(key: string, values: Config)
    ensures Pieces([]) == [] && Fill(key, [], values) == []
  {
  }

  lemma BelowAlike(src: Config, rank: string -> nat, key: string, all: seq<Piece>, some: seq<Piece>)
    requires AllBelow(src, rank, key, all) && forall x :: x in some ==> x in all
    ensures AllBelow(src, rank, key, some)
  {
  }

  lemma ReferenceBegins(value: string, i: nat)
    requires i < |value| && value[i] == '{'
    ensures InReference(value, i + 1, Some(i + 1)) && Rest(value, i + 1, Some(i + 1)) == Pieces(value[i..])
  {
  }

  lemma ScanUnfolds(src: Config, dst: Config, key: string, p0: nat, pk: Option<nat>, out: string)
    requires key in src && p0 <= Length(src[key]) && (pk.Some? ==> pk.value <= p0)
    ensures p0 == Length(src[key]) ==> Scan(src, dst, key, p0, pk, out) == out
    ensures p0 < Length(src[key]) && pk.None? && src[key][p0] == '{' ==>
              Scan(src, dst, key, p0, pk, out) == Scan(src, dst, key, p0 + 1, Some(p0 + 1), out)
    ensures p0 < Length(src[key]) && pk.None? && src[key][p0] != '{' && |out| + 1 < 255 ==>
              Scan(src, dst, key, p0, pk, out) == Scan(src, dst, key, p0 + 1, None, out + [src[key][p0]])
    ensures p0 < Length(src[key]) && pk.Some? && src[key][p0] != '}' ==>
              Scan(src, dst, key, p0, pk, out) == Scan(src, dst, key, p0 + 1, pk, out)
    ensures p0 < Length(src[key]) && pk == Some(p0) && src[key][p0] == '}' ==>
              Scan(src, dst, key, p0, pk, out) == Scan(src, dst, key, p0 + 1, None, out)
    ensures p0 < Length(src[key]) && pk.Some? && pk.value < p0 && src[key][p0] == '}' ==>
              var r := Final(Hidden(src, key, p0), dst, FullKey(key, src[key][pk.value..p0]));
              var text := if r.Some? then r.value else [];
              |out| + |text| <= 255 ==> Scan(src, dst, key, p0, pk, out) == Scan(src, dst, key, p0 + 1, None, out + text)
  {
    hide Final, FullKey, Hidden, Length;
    assert out + [] == out;
  }

  /** What is left after one more character. */
  lemma RestUnfolds(src: Config, rank: string -> nat, key: string, value: string, p0: nat, pk: Option<nat>, values: Config)
    requires InReference(value, p0, pk)
    requires p0 <= |value| && (pk.Some? ==> 0 < pk.value <= p0) && AllBelow(src, rank, key, Rest(value, p0, pk))
    ensures p0 == |value| ==> Fill(key, Rest(value, p0, pk), values) == []
    ensures p0 < |value| ==> InReference(value, p0 + 1, None)
    ensures p0 < |value| && pk.None? && value[p0] == '{' ==>
              InReference(value, p0 + 1, Some(p0 + 1)) && Rest(value, p0, pk) == Rest(value, p0 + 1, Some(p0 + 1))
    ensures p0 < |value| && pk.None? && value[p0] != '{' ==>
              && Fill(key, Rest(value, p0, pk), values) == [value[p0]] + Fill(key, Rest(value, p0 + 1, None), values)
              && AllBelow(src, rank, key, Rest(value, p0 + 1, None))
    ensures p0 < |value| && pk.Some? && value[p0] != '}' ==> InReference(value, p0 + 1, pk) && Rest(value, p0, pk) == Rest(value, p0 + 1, pk)
    ensures p0 < |value| && pk == Some(p0) && value[p0] == '}' ==> Rest(value, p0, pk) == Rest(value, p0 + 1, None)
    ensures p0 < |value| && pk.Some? && pk.value < p0 && value[p0] == '}' ==>
              var ref := Ref(value[pk.value..p0]);
              && Fill(key, Rest(value, p0, pk), values) == Filled(key, ref, values) + Fill(key, Rest(value, p0 + 1, None), values)
              && AllBelow(src, rank, key, Rest(value, p0 + 1, None)) && RanksBelow(src, rank, key, ref)
  {
    hide Fill, Filled, AllBelow, RanksBelow;
    NoPieces(key, values);
    if pk.None? {
      if p0 == |value| {
        assert value[p0..] == [];
      } else if value[p0] != '{' {
        hide Pieces;
        TextPiece(src, rank, key, value, p0, values);
      }
    } else if p0 == |value| {
      OpenReference(value, pk.value);
    } else if value[p0] == '}' {
      hide Pieces;
      ClosedReference(src, rank, key, value, p0, pk.value, values);
    }
  }

  lemma TextPiece(src: Config, rank: string -> nat, key: string, value: string, p0: nat, values: Config)
    requires p0 < |value| && value[p0] != '{'
    ensures Fill(key, Pieces(value[p0..]), values) == [value[p0]] + Fill(key, Pieces(value[p0 + 1..]), values)
    ensures AllBelow(src, rank, key, Pieces(value[p0..])) ==> AllBelow(src, rank, key, Pieces(value[p0 + 1..]))
  {
    assert value[p0..][1..] == value[p0 + 1..];
    var others := Pieces(value[p0 + 1..]);
    assert Pieces(value[p0..]) == [Text(value[p0])] + others;
    hide Pieces, Fill, RanksBelow;
    FillFirst(key, Text(value[p0]), others, values);
  }

  lemma OpenReference(value: string, pk: nat)
    requires 0 < pk <= |value| && value[pk - 1] == '{' && forall i :: pk <= i < |value| ==> value[i] != '}'
    ensures Pieces(value[pk - 1..]) == []
  {
    assert value[pk - 1..][1..] == value[pk..];
  }

  lemma ClosedReference(src: Config, rank: string -> nat, key: string, value: string, p0: nat, pk: nat, values: Config)
    requires 0 < pk <= p0 < |value| && value[pk - 1] == '{' && value[p0] == '}' && forall i :: pk <= i < p0 ==> value[i] != '}'
    ensures pk == p0 ==> Pieces(value[pk - 1..]) == Pieces(value[p0 + 1..])
    ensures pk < p0 ==>
              var ref := Ref(value[pk..p0]);
              && Fill(key, Pieces(value[pk - 1..]), values) == Filled(key, ref, values) + Fill(key, Pieces(value[p0 + 1..]), values)
              && (AllBelow(src, rank, key, Pieces(value[pk - 1..])) ==>
                    AllBelow(src, rank, key, Pieces(value[p0 + 1..])) && RanksBelow(src, rank, key, ref))
  {
    var from := value[pk - 1..];
    assert from[1..] == value[pk..];
    IndexIs(value[pk..], '}', p0 - pk);
    var n := p0 - pk;
    assert from[1..n + 1] == value[pk..p0];
    assert from[n + 2..] == value[p0 + 1..];
    var ref, others := Ref(value[pk..p0]), Pieces(value[p0 + 1..]);
    assert Pieces(from) == (if n == 0 then [] else [ref]) + others;
    hide Pieces, Fill, Filled, RanksBelow;
    FillFirst(key, ref, others, values);
    assert [] + others == others;
  }

  /** Looking up a reference, with its end hidden, sees the same values below. */
  lemma ReadyHidden(values: Config, src: Config, dst: Config, rank: string -> nat, key: string, p0: nat, full: string)
    requires Ready(values, src, dst, rank, key) && key in src && p0 < |src[key]|
    requires full in src ==> rank(full) < rank(key)
    ensures Ready(values, Hidden(src, key, p0), dst, rank, full)
    ensures full in Hidden(src, key, p0) <==> full in src
    ensures Level(Hidden(src, key, p0), rank, full) < Level(src, rank, key)
  {
    hide Visible, Pieces, Fill;
    var now := Hidden(src, key, p0);
    assert now.Keys == src.Keys;
    assert forall k :: k in src && k != key ==> now[k] == src[k];
    hide Hidden;
    assert Agrees(dst, values, now);
    if full in src {
      forall k | k in now && k !in dst && rank(k) <= rank(full)
        ensures k in values && values[k] == Fill(k, Pieces(Visible(now[k])), values) && AllBelow(now, rank, k, Pieces(Visible(now[k])))
      {
        assert AllBelow(src, rank, k, Pieces(Visible(src[k])));
        forall x | x in Pieces(Visible(now[k])) ensures RanksBelow(now, rank, k, x) {
          assert RanksBelow(src, rank, k, x);
        }
      }
      assert SolvesUpTo(values, now, dst, rank, rank(full));
    }
  }

  lemma ReferenceMeans(src: Config, rank: string -> nat, key: string, name: string, values: Config)
    requires RanksBelow(src, rank, key, Ref(name)) && name != []
    ensures FullKey(key, name) in src ==> rank(FullKey(key, name)) < rank(key)
    ensures Filled(key, Ref(name), values) == if FullKey(key, name) in values then values[FullKey(key, name)] else []
  {
  }

  lemma Reassociate(a: string, b: string, c: string)
    ensures a + (b + c) == (a + b) + c
    ensures |a| + |b| <= |a + (b + c)|
  {
  }

  // ---- All keys ----

  /** One key is put into the target with its final value. */
  function Put(src: Config, dst: Config, key: string): Config {
    if key !in src then dst
    else if IndexOf(Visible(src[key]), '{') == |Visible(src[key])| then dst[key := Visible(src[key])]
    else
      var r := Final(src, dst, key);
      if r.Some? then dst[key := r.value] else dst
  }

  function PutAll(src: Config, dst: Config, order: seq<string>): Config {
    if order == [] then dst else Put(src, PutAll(src, dst, order[..|order| - 1]), order[|order| - 1])
  }

  /** Goes through all keys, in the order in which the map lists them. */
  method IniParserTrans(src: StrMap, dst: StrMap, order: seq<string>)
    requires src != dst
    modifies src, dst
    ensures src.entries == old(src.entries)
    ensures dst.entries == PutAll(src.entries, old(dst.entries), order)
  {
    hide Final, Visible, PutAll;
    ghost var was, preset := src.entries, dst.entries;
    NonePut(was, preset, order[..0]);
    for i := 0 to |order|
      invariant src.entries == was && dst.entries == PutAll(was, preset, order[..i])
    {
      var key := order[i];
      OnePut(was, preset, order, i);
      if key in src.entries {
        var value := Visible(src.entries[key]);
        if IndexOf(value, '{') == |value| {
          dst.entries := dst.entries[key := value];
        } else {
          var newval := GetFinalValue(src, dst, key);
          if newval.Some? {
            dst.entries := dst.entries[key := newval.value];
          }
        }
      }
    }
    assert order[..|order|] == order;
  }

  lemma NonePut(src: Config, dst: Config, order: seq<string>)
    requires order == []
    ensures PutAll(src, dst, order) == dst
  {
  }

  lemma OnePut(src: Config, dst: Config, order: seq<string>, i: nat)
    requires i < |order|
    ensures PutAll(src, dst, order[..i + 1]) == Put(src, PutAll(src, dst, order[..i]), order[i])
  {
    hide Put;
    assert order[..i + 1][..i] == order[..i];
  }

  /**
   Whatever the order: without cycles, with the preset keys apart from those of the source, and as long as everything
   fits in a line, the target is the one solution.
   */
  lemma OrderDoesNotMatter(src: Config, preset: Config, rank: string -> nat, order: seq<string>)
    requires Acyclic(src, rank) && src.Keys !! preset.Keys && Short(Solution(src, preset, rank))
    requires forall k :: k in order <==> k in src
    ensures PutAll(src, preset, order) == Solution(src, preset, rank)
  {
    hide *;
    var values := Solution(src, preset, rank);
    SolutionSolves(src, preset, rank);
    assert order[..|order|] == order;
    PutSome(src, preset, rank, values, order);
    var dst := PutAll(src, preset, order);
    assert dst.Keys == values.Keys;
  }

  lemma {:induction false} PutSome(src: Config, preset: Config, rank: string -> nat, values: Config, order: seq<string>)
    requires Acyclic(src, rank) && Solves(values, src) && Short(values) && values.Keys == src.Keys + preset.Keys
    requires forall k :: k in preset ==> k !in src && k in values && values[k] == preset[k]
    requires forall k :: k in order ==> k in src
    ensures forall k :: k in PutAll(src, preset, order) <==> k in preset || k in order
    ensures forall k :: k in PutAll(src, preset, order) ==> k in values && PutAll(src, preset, order)[k] == values[k]
  {
    hide *;
    if order == [] {
      NonePut(src, preset, order);
    } else {
      var n := |order| - 1;
      PutSome(src, preset, rank, values, order[..n]);
      assert order == order[..n] + [order[n]] && order[..n + 1] == order;
      OnePut(src, preset, order, n);
      PutFits(src, PutAll(src, preset, order[..n]), rank, values, order[n]);
    }
  }

  lemma PutFits(src: Config, dst: Config, rank: string -> nat, values: Config, key: string)
    requires Acyclic(src, rank) && Solves(values, src) && Short(values) && key in src
    requires forall k :: k in dst ==> k in values && values[k] == dst[k]
    requires forall k :: k in values ==> k in src || k in dst
    ensures Put(src, dst, key) == dst[key := values[key]] && key in values
  {
    hide *;
    SolvesAll(values, src, dst);
    PutGiven(src, dst, rank, values, key);
    if Plain(src, key) {
      PlainFill(src, values, key);
    }
  }

  lemma SolvesAll(values: Config, src: Config, dst: Config)
    requires Solves(values, src)
    requires forall k :: k in dst ==> k in values && values[k] == dst[k]
    requires forall k :: k in values ==> k in src || k in dst
    ensures SolvesOutside(values, src, dst) && Agrees(dst, values, src)
    ensures forall k :: k in src ==> k in values && values[k] == Fill(k, Pieces(Visible(src[k])), values)
  {
    hide Fill, Pieces, Visible;
  }

  /** The equations of the keys that are not known yet. */
  ghost predicate SolvesOutside(values: Config, src: Config, dst: Config) {
    forall k :: k in src && k !in dst ==> k in values && values[k] == Fill(k, Pieces(Visible(src[k])), values)
  }

  /** A key whose text has no reference. */
  predicate Plain(src: Config, key: string)
    requires key in src
  {
    IndexOf(Visible(src[key]), '{') == |Visible(src[key])|
  }

  /** Text without references stands for itself. */
  lemma PlainFill(src: Config, values: Config, key: string)
    requires key in src && Plain(src, key)
    ensures Fill(key, Pieces(Visible(src[key])), values) == Visible(src[key])
  {
    hide Pieces, Fill, Length;
    var value := Visible(src[key]);
    TextFirst(key, value, |value|, values);
    NoPieces(key, values);
    assert value[|value|..] == [] && value[..|value|] == value;
    assert value + [] == value;
  }

  /** What is put: the text itself where it has no reference; else what is known, or what solves the rest. */
  lemma PutGiven(src: Config, dst: Config, rank: string -> nat, values: Config, key: string)
    requires Acyclic(src, rank) && SolvesOutside(values, src, dst) && Agrees(dst, values, src) && Short(values) && key in src
    ensures key in values && Put(src, dst, key) == dst[key := if Plain(src, key) then Visible(src[key]) else values[key]]
    ensures key !in dst ==> Put(src, dst, key) == dst[key := values[key]]
  {
    hide Final, Pieces, Fill, Acyclic, SolvesOutside, Short, Visible, IndexOf;
    AcyclicReady(src, dst, rank, values, key);
    ReadyMeans(values, src, dst, rank, key);
    FinalSolves(values, src, dst, rank, key);
    if Plain(src, key) {
      PlainFill(src, values, key);
    }
  }

  lemma AcyclicReady(src: Config, dst: Config, rank: string -> nat, values: Config, key: string)
    requires Acyclic(src, rank) && SolvesOutside(values, src, dst) && Agrees(dst, values, src) && Short(values)
    ensures Ready(values, src, dst, rank, key)
  {
    hide Pieces, Fill, Acyclic, Visible;
    forall k | k in src ensures AllBelow(src, rank, k, Pieces(Visible(src[k]))) {
      var pieces := Pieces(Visible(src[k]));
      forall x | x in pieces ensures RanksBelow(src, rank, k, x) {
        var i :| 0 <= i < |pieces| && pieces[i] == x;
        Lower(src, rank, k, i);
      }
    }
  }

  /** With a preset key that the source has too, the order shows: the reference finds the old value or the new one. */
  lemma PresetShowsOrder()
    ensures var src: Config := map["var:a" := "1", "var:b" := "{a}"];
            var preset: Config := map["var:a" := "0"];
            && "var:b" in PutAll(src, preset, ["var:a", "var:b"]) && PutAll(src, preset, ["var:a", "var:b"])["var:b"] == "1"
            && "var:b" in PutAll(src, preset, ["var:b", "var:a"]) && PutAll(src, preset, ["var:b", "var:a"])["var:b"] == "0"
  {
    hide PutAll, Put, Final, Scan;
    var a, b := "var:a", "var:b";
    var src: Config := map[a := "1", b := "{a}"];
    var preset: Config := map[a := "0"];
    assert Visible("1") == "1" && Visible("{a}") == "{a}";
    ReferenceToA(src, preset);
    ReferenceToA(src, preset[a := "1"]);
    PlainA(src, preset);
    PlainA(src, preset[b := "0"]);
    BothPut(src, preset, a, b);
    BothPut(src, preset, b, a);
  }

  lemma BothPut(src: Config, dst: Config, k: string, l: string)
    ensures PutAll(src, dst, [k, l]) == Put(src, Put(src, dst, k), l)
  {
    hide Put;
    var order := [k, l];
    NonePut(src, dst, order[..0]);
    OnePut(src, dst, order, 0);
    OnePut(src, dst, order, 1);
    assert order[..2] == order;
  }

  lemma PlainA(src: Config, dst: Config)
    requires "var:a" in src && src["var:a"] == "1"
    ensures Put(src, dst, "var:a") == dst["var:a" := "1"]
  {
    hide Final;
    var value := "1";
    LengthIs(value);
    assert Visible(value) == value;
    assert IndexOf(value, '{') == |value|;
  }

  lemma ReferenceToA(src: Config, dst: Config)
    requires "var:b" in src && src["var:b"] == "{a}" && "var:a" in dst && "var:b" !in dst && |dst["var:a"]| == 1
    ensures Put(src, dst, "var:b") == dst["var:b" := dst["var:a"]]
  {
    var b, value := "var:b", "{a}";
    hide Final, Scan, Length, FullKey;
    assert Length(value) == 3 by {
      LengthIs(value);
    }
    assert Visible(value) == value;
    FinalUnfolds(src, dst, b);
    ScanUnfolds(src, dst, b, 1, Some(1), []);
    ScanUnfolds(src, dst, b, 2, Some(1), []);
    ScanUnfolds(src, dst, b, 3, None, [] + dst["var:a"]);
    assert value[1..2] == "a" && value[..0] == "";
    assert FullKey(b, "a") == "var:a" by {
      FullKeyOfA(b);
    }
    FinalUnfolds(Hidden(src, b, 2), dst, "var:a");
    assert [] + dst["var:a"] == dst["var:a"];
  }

  /** A reference within its section: the `:y` of a key in section `a` is found as `a:y`. */
  method ShowSection() returns (newval: Option<string>)
    ensures newval == Some("1")
  {
    var src, dst := new StrMap, new StrMap;
    src.entries, dst.entries := map["a:x" := "{:y}", "a:y" := "1"], map[];
    newval := GetFinalValue(src, dst, "a:x");
    ReferenceInSection(map["a:x" := "{:y}", "a:y" := "1"], map[]);
  }

  lemma ReferenceInSection(src: Config, dst: Config)
    requires "a:x" in src && src["a:x"] == "{:y}" && "a:y" in src && src["a:y"] == "1" && "a:x" !in dst && "a:y" !in dst
    ensures Final(src, dst, "a:x") == Some("1")
  {
    var x, value := "a:x", "{:y}";
    hide Final, Scan, Length, FullKey;
    assert Length(value) == 4 && Length("1") == 1 by {
      LengthIs(value);
      LengthIs("1");
    }
    assert Visible(value) == value && Visible("1") == "1";
    FinalUnfolds(src, dst, x);
    ScanUnfolds(src, dst, x, 1, Some(1), []);
    ScanUnfolds(src, dst, x, 2, Some(1), []);
    ScanUnfolds(src, dst, x, 3, Some(1), []);
    ScanUnfolds(src, dst, x, 4, None, [] + "1");
    assert value[1..3] == ":y" && value[..0] == "";
    assert FullKey(x, ":y") == "a:y" by {
      ReferencesMean("a", "x", "y");
      assert "a" + ":" + "x" == x && ":" + "y" == ":y" && "a" + ":" + "y" == "a:y";
    }
    FinalUnfolds(Hidden(src, x, 3), dst, "a:y");
    assert IndexOf("1", '{') == 1;
    assert [] + "1" == "1";
  }

  lemma LengthIs(s: string)
    requires '\0' !in s
    ensures Length(s) == |s|
  {
  }

  lemma FullKeyOfA(key: string)
    ensures FullKey(key, "a") == "var:a"
  {
  }
}
