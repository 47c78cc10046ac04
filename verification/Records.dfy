/** The buffer of a symbol whose version is still open: one record after the other, and a zero byte at the end. */
module Records {
  import opened Bits
  import opened Options
  import opened Segments

  /** Numbers of the modes in the interface; -1 asks for detection. */
  function ModeOfNumber(n: int): (m: Option<Mode>)
  {
    if n == 0 then Some(Numeric) else if n == 1 then Some(Alnum) else if n == 2 then Some(EightBit)
    else if n == 3 then Some(Kanji) else None
  }

  function NumberOfMode(m: Mode): (n: nat)
    requires m != Auto
    ensures n < 4 && ModeOfNumber(n) == Some(m)
  {
    match m
    case Numeric => 0
    case Alnum => 1
    case EightBit => 2
    case Kanji => 3
  }

  const MAX_SIZE := 0x8000_0000

  function SizeBytes(n: nat): (b: seq<Octet>)
    ensures |b| == 4
  {
    [n / 0x1000000 % 0x80, n / 0x10000 % 0x100, n / 0x100 % 0x100, n % 0x100]
  }

  function SizeOf(a: Octet, b: Octet, c: Octet, d: Octet): nat {
    a * 0x1000000 + b * 0x10000 + c * 0x100 + d
  }

  lemma SizeRoundTrip(n: nat)
    requires n < MAX_SIZE
    ensures var b := SizeBytes(n); SizeOf(b[0], b[1], b[2], b[3]) == n
  {
    assert n / 0x1000000 < 0x80;
    assert n / 0x10000 == n / 0x1000000 * 0x100 + n / 0x10000 % 0x100 by { assert n / 0x10000 / 0x100 == n / 0x1000000; }
    assert n / 0x100 == n / 0x10000 * 0x100 + n / 0x100 % 0x100 by { assert n / 0x100 / 0x100 == n / 0x10000; }
  }

  /** A record: the mode with its high bit set, four bytes of size, the data. */
  function Record(s: Segment): seq<Octet>
    requires s.Storable()
  {
    [0x80 + NumberOfMode(s.mode)] + SizeBytes(|s.data|) + s.data
  }

  function RecordsOf(segs: seq<Segment>): seq<Octet>
    requires AllStorable(segs)
  {
    if segs == [] then [] else Record(segs[0]) + RecordsOf(segs[1..])
  }

  lemma {:induction false} RecordsAppend(segs: seq<Segment>, s: Segment)
    requires AllStorable(segs) && s.Storable()
    ensures RecordsOf(segs + [s]) == RecordsOf(segs) + Record(s)
  {
    if segs == [] {
      assert segs + [s] == [s] && RecordsOf([]) == [];
    } else {
      RecordsAppend(segs[1..], s);
      assert (segs + [s])[1..] == segs[1..] + [s];
      Regroup(Record(segs[0]), RecordsOf(segs[1..]), Record(s));
    }
  }

  /** What parsing finds at the front of the records. */
  lemma FirstRecord(segs: seq<Segment>, rest: seq<Octet>)
    requires AllStorable(segs) && rest == RecordsOf(segs)
    ensures segs == [] <==> rest == []
    ensures segs != [] ==>
              && |segs[0].data| < |rest| && rest[0] == 0x80 + NumberOfMode(segs[0].mode)
              && 5 + |segs[0].data| <= |rest| && rest[5..5 + |segs[0].data|] == segs[0].data
              && (|segs[0].data| < MAX_SIZE ==> SizeOf(rest[1], rest[2], rest[3], rest[4]) == |segs[0].data|)
              && rest[5 + |segs[0].data|..] == RecordsOf(segs[1..])
  {
    if segs != [] {
      var s, b := segs[0], SizeBytes(|segs[0].data|);
      if |s.data| < MAX_SIZE {
        SizeRoundTrip(|s.data|);
      }
      hide SizeBytes, SizeOf;
      assert rest == [0x80 + NumberOfMode(s.mode)] + b + s.data + RecordsOf(segs[1..]);
      assert rest[1] == b[0] && rest[2] == b[1] && rest[3] == b[2] && rest[4] == b[3];
    }
  }
}
