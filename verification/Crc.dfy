/** The checksum of the PNG format: eight bits at a time through a table comes to the same as one bit at a time. */
module Crcs {

  /** `unsigned long`, where it has 64 bits. */
  type Word = bv64

  function Xor(x: Word, y: Word): Word {
    x ^ y
  }

  function Half(x: Word): Word {
    x >> 1
  }

  function LowByte(x: Word): Word {
    x & 0xff
  }

  function HighBytes(x: Word): Word {
    x & 0xffff_ffff_ffff_ff00
  }

  function ByteOff(x: Word): Word {
    x >> 8
  }

  function Wide(b: bv8): Word {
    b as Word
  }

  predicate Odd(x: Word) {
    x & 1 == 1
  }

  function Step(c: Word): Word {
    if Odd(c) then Xor(0xedb88320, Half(c)) else Half(c)
  }

  function Steps(c: Word, k: nat): Word {
    if k == 0 then c else Step(Steps(c, k - 1))
  }

  function Halved(w: Word, k: nat): Word {
    if k == 0 then w else Half(Halved(w, k - 1))
  }

  /** The k lowest bits, the lowest first. */
  function LowBits(w: Word, k: nat): seq<bool> {
    if k == 0 then [] else LowBits(w, k - 1) + [Odd(Halved(w, k - 1))]
  }

  function MessageBits(buf: seq<bv8>): seq<bool> {
    if buf == [] then [] else MessageBits(buf[..|buf| - 1]) + LowBits(Wide(buf[|buf| - 1]), 8)
  }

  /** The running value after a message, one bit after the other. */
  function Serial(c: Word, bits: seq<bool>): Word {
    if bits == [] then c else Step(Xor(Serial(c, bits[..|bits| - 1]), if bits[|bits| - 1] then 1 else 0))
  }

  lemma {:induction false} SerialComposes(c: Word, a: seq<bool>, b: seq<bool>)
    ensures Serial(c, a + b) == Serial(Serial(c, a), b)
  {
    hide Step, Xor;
    if b == [] {
      assert a + b == a;
    } else {
      SerialComposes(c, a, b[..|b| - 1]);
      assert (a + b)[..|a + b| - 1] == a + b[..|b| - 1];
    }
  }

  // ---- A step is linear ----

  lemma XorLaws(x: Word, y: Word, z: Word)
    ensures Xor(Xor(x, y), z) == Xor(x, Xor(y, z)) && Xor(x, y) == Xor(y, x) && Xor(x, Xor(x, y)) == y && Xor(x, 0) == x
  {
  }

  lemma HalfXor(x: Word, y: Word)
    ensures Half(Xor(x, y)) == Xor(Half(x), Half(y))
  {
  }

  lemma OddXor(x: Word, y: Word)
    ensures Odd(Xor(x, y)) <==> (Odd(x) != Odd(y))
  {
    assert (x ^ y) & 1 == (x & 1) ^ (y & 1);
  }

  lemma StepLinear(x: Word, y: Word)
    ensures Step(Xor(x, y)) == Xor(Step(x), Step(y))
  {
    hide Xor, Half, Odd;
    OddXor(x, y);
    HalfXor(x, y);
    var p: Word, u, v := 0xedb88320, Half(x), Half(y);
    XorLaws(p, u, v);
    XorLaws(u, p, v);
    XorLaws(p, u, Xor(p, v));
    XorLaws(p, Xor(u, v), v);
    XorLaws(p, v, u);
  }

  lemma {:induction false} StepsLinear(x: Word, y: Word, k: nat)
    ensures Steps(Xor(x, y), k) == Xor(Steps(x, k), Steps(y, k))
  {
    if k > 0 {
      hide Step, Xor;
      StepsLinear(x, y, k - 1);
      StepLinear(Steps(x, k - 1), Steps(y, k - 1));
    }
  }

  // ---- Eight bits at once ----

  /** The lowest bit taken off. */
  lemma LowestBit(w: Word)
    ensures var bit: Word := if Odd(w) then 1 else 0; !Odd(Xor(w, bit)) && Half(Xor(w, bit)) == Half(w)
  {
    var bit: Word := if Odd(w) then 1 else 0;
    LowestBitIs(w);
  }

  lemma LowestBitIs(w: Word)
    ensures (w ^ 1) >> 1 == w >> 1 && (w & 1 == 1 ==> (w ^ 1) & 1 == 0) && w ^ 0 == w && (w & 1 == 0 || w & 1 == 1)
  {
  }

  /** Taking in the bits one by one, or all of them at first, is the same but for the bits that are left. */
  lemma {:induction false} SerialSteps(c: Word, w: Word, k: nat)
    ensures Xor(Serial(c, LowBits(w, k)), Halved(w, k)) == Steps(Xor(c, w), k)
  {
    if k == 0 {
    } else {
      SerialSteps(c, w, k - 1);
      var s, rest := Serial(c, LowBits(w, k - 1)), Halved(w, k - 1);
      var bit: Word := if Odd(rest) then 1 else 0;
      var high := Xor(rest, bit);
      LowestBit(rest);
      var bits := LowBits(w, k);
      assert bits[..|bits| - 1] == LowBits(w, k - 1);
      assert Serial(c, bits) == Step(Xor(s, bit));
      assert Step(high) == Half(rest);
      hide Xor, Step, Half, Odd, Serial, LowBits;
      XorLaws(bit, rest, 0);
      XorLaws(rest, bit, 0);
      XorLaws(bit, high, 0);
      XorLaws(s, bit, high);
      StepLinear(Xor(s, bit), high);
    }
  }

  lemma EightHalves(w: Word)
    ensures Halved(w, 0) == w && Halved(w, 1) == Half(w) && Halved(w, 2) == Half(Half(w)) && Halved(w, 3) == Half(Half(Half(w)))
    ensures Halved(w, 4) == Half(Half(Half(Half(w)))) && Halved(w, 5) == Half(Halved(w, 4)) && Halved(w, 6) == Half(Halved(w, 5))
    ensures Halved(w, 7) == Half(Halved(w, 6)) && Halved(w, 8) == Half(Halved(w, 7)) == ByteOff(w)
  {
    hide *;
    HalvedNone(w);
    HalvedNext(w, 0);
    HalvedNext(w, 1);
    HalvedNext(w, 2);
    HalvedNext(w, 3);
    HalvedNext(w, 4);
    HalvedNext(w, 5);
    HalvedNext(w, 6);
    HalvedNext(w, 7);
    EightTimes(w);
  }

  lemma HalvedNext(w: Word, k: nat)
    ensures Halved(w, k + 1) == Half(Halved(w, k))
  {
  }

  lemma EightTimes(w: Word)
    ensures Half(Half(Half(Half(Half(Half(Half(Half(w)))))))) == ByteOff(w)
  {
  }

  lemma HalvedNone(w: Word)
    ensures Halved(w, 0) == w
  {
  }

  /** Where the eight low bits are clear, eight steps only shift. */
  lemma {:induction false} HighSteps(w: Word, k: nat)
    requires forall i :: 0 <= i < k ==> !Odd(Halved(w, i))
    ensures Steps(w, k) == Halved(w, k)
  {
    hide Odd, Half;
    if k > 0 {
      HighSteps(w, k - 1);
      assert !Odd(Halved(w, k - 1));
    }
  }

  /** What the table holds for the low byte, and the rest of the word shifted: eight steps. */
  lemma TableStep(x: Word)
    ensures Steps(x, 8) == Xor(Steps(LowByte(x), 8), ByteOff(x))
  {
    hide *;
    var low, high := LowByte(x), HighBytes(x);
    Parts(x);
    StepsLinear(low, high, 8);
    HighEven(high);
    HighSteps(high, 8);
    EightHalves(high);
  }

  lemma Parts(x: Word)
    ensures Xor(LowByte(x), HighBytes(x)) == x && ByteOff(HighBytes(x)) == ByteOff(x) && LowByte(HighBytes(x)) == 0
  {
  }

  lemma HighEven(w: Word)
    requires LowByte(w) == 0
    ensures forall i :: 0 <= i < 8 ==> !Odd(Halved(w, i))
  {
    hide *;
    EightHalves(w);
    LowByteClear(w);
  }

  lemma LowByteClear(w: Word)
    requires LowByte(w) == 0
    ensures !Odd(w) && !Odd(Half(w)) && !Odd(Half(Half(w))) && !Odd(Half(Half(Half(w)))) && !Odd(Half(Half(Half(Half(w)))))
    ensures !Odd(Half(Half(Half(Half(Half(w)))))) && !Odd(Half(Half(Half(Half(Half(Half(w)))))))
    ensures !Odd(Half(Half(Half(Half(Half(Half(Half(w))))))))
  {
  }

  /** A whole byte, against its bits one after the other. */
  lemma SerialByte(c: Word, b: bv8)
    ensures Serial(c, LowBits(Wide(b), 8)) == Xor(Steps(LowByte(Xor(c, Wide(b))), 8), ByteOff(c))
  {
    hide *;
    var w := Wide(b);
    SerialSteps(c, w, 8);
    EightHalves(w);
    ByteShifted(c, b);
    NothingAdded(Serial(c, LowBits(w, 8)));
    TableStep(Xor(c, w));
  }

  lemma ByteShifted(c: Word, b: bv8)
    ensures ByteOff(Wide(b)) == 0 && ByteOff(Xor(c, Wide(b))) == ByteOff(c)
  {
  }

  lemma NothingAdded(x: Word)
    ensures Xor(x, 0) == x
  {
  }

  // ---- The table ----

  /** What the table holds for a byte. */
  function Entry(n: nat): Word
    requires n < 256
  {
    Steps(n as Word, 8)
  }

  function Index(x: Word): (n: nat)
    ensures n < 256
  {
    LowByteSmall(x);
    LowByte(x) as nat
  }

  lemma LowByteSmall(x: Word)
    ensures LowByte(x) as nat < 256
  {
    assert x & 0xff < 256;
  }

  lemma IndexBack(x: Word)
    ensures Index(x) as Word == LowByte(x)
  {
    hide LowByte;
  }

  lemma EntryOf(x: Word)
    ensures Entry(Index(x)) == Steps(LowByte(x), 8)
  {
    hide *;
    IndexBack(x);
    EntryIs(Index(x));
  }

  lemma EntryIs(n: nat)
    requires n < 256
    ensures Entry(n) == Steps(n as Word, 8)
  {
  }

  ghost predicate IsTable(table: seq<Word>) {
    |table| == 256 && forall n :: 0 <= n < 256 ==> table[n] == Entry(n)
  }

  class Crc {
    var table: array<Word>
    var computed: bool

    ghost predicate Valid()
      reads this, table
    {
      table.Length == 256 && (computed ==> IsTable(table[..]))
    }

    constructor ()
      ensures Valid() && !computed && fresh(table)
    {
      table := new Word[256];
      computed := false;
      new;
    }

    method MakeTable()
      requires Valid()
      modifies this`computed, table
      ensures Valid() && computed
    {
      hide *;
      ValidMeans();
      for n := 0 to 256
        invariant forall k :: 0 <= k < n ==> table[k] == Entry(k)
      {
        var c := n as Word;
        ghost var start := c;
        EntryIs(n);
        NoSteps(c);
        for k := 0 to 8
          invariant c == Steps(start, k)
          invariant forall k :: 0 <= k < n ==> table[k] == Entry(k)
        {
          NextStep(start, k);
          if Odd(c) {
            c := Xor(0xedb88320, Half(c));
          } else {
            c := Half(c);
          }
        }
        table[n] := c;
      }
      computed := true;
      TableMade();
    }

    lemma TableMade()
      requires table.Length == 256 && forall k :: 0 <= k < 256 ==> table[k] == Entry(k)
      ensures Valid()
    {
      hide Entry;
    }

    lemma ValidMeans()
      requires Valid()
      ensures table.Length == 256
    {
    }

    /** The running value after a buffer, which is that of its bits one after the other. */
    method Update(crc: Word, buf: array<bv8>, len: nat) returns (c: Word)
      requires Valid() && len <= buf.Length
      modifies this`computed, table
      ensures Valid()
      ensures c == Serial(crc, MessageBits(buf[..len]))
    {
      hide *;
      c := crc;
      if !computed {
        MakeTable();
      }
      NoMessage(crc, buf[..0]);
      for n := 0 to len
        invariant Valid() && computed
        invariant c == Serial(crc, MessageBits(buf[..n]))
      {
        MessageBit(crc, buf[..len], n);
        assert buf[..n + 1] == buf[..len][..n + 1] && buf[..n] == buf[..len][..n];
        var x := Xor(c, Wide(buf[n]));
        TableHolds(x);
        c := Xor(table[Index(x)], ByteOff(c));
      }
    }

    lemma TableHolds(x: Word)
      requires Valid() && computed
      ensures table.Length == 256 && table[Index(x)] == Steps(LowByte(x), 8)
    {
      hide Entry, Index;
      EntryOf(x);
    }

    /** The checksum of a buffer. */
    method Sum(buf: array<bv8>, len: nat) returns (c: Word)
      requires Valid() && len <= buf.Length
      modifies this`computed, table
      ensures Valid()
      ensures c == Xor(Serial(0xffff_ffff, MessageBits(buf[..len])), 0xffff_ffff)
    {
      hide *;
      c := Update(0xffff_ffff, buf, len);
      c := Xor(c, 0xffff_ffff);
    }
  }

  /** The checksum of the one letter "a". */
  lemma SumOfA()
    ensures Xor(Serial(0xffff_ffff, MessageBits([0x61])), 0xffff_ffff) == 0xe8b7_be43
  {
    hide *;
    var a: seq<bv8> := [0x61];
    assert a[..1] == a && a[..0] == [];
    NoMessage(0xffff_ffff, a[..0]);
    MessageBit(0xffff_ffff, a, 0);
    WordsOfA();
    StepsOfA();
  }

  lemma WordsOfA()
    ensures LowByte(Xor(0xffff_ffff, Wide(0x61))) == 0x9e && Xor(Xor(0x17b7be43, ByteOff(0xffff_ffff)), 0xffff_ffff) == 0xe8b7_be43
  {
  }

  lemma StepsOfA()
    ensures Steps(0x9e, 8) == 0x17b7be43
  {
    hide Steps, Step;
    NoSteps(0x9e);
    NextStepTo(0x9e, 0, 0x9e, 0x4f);
    NextStepTo(0x9e, 1, 0x4f, 0xedb88307);
    NextStepTo(0x9e, 2, 0xedb88307, 0x9b64c2a3);
    NextStepTo(0x9e, 3, 0x9b64c2a3, 0xa00ae271);
    NextStepTo(0x9e, 4, 0xa00ae271, 0xbdbdf218);
    NextStepTo(0x9e, 5, 0xbdbdf218, 0x5edef90c);
    NextStepTo(0x9e, 6, 0x5edef90c, 0x2f6f7c86);
    NextStepTo(0x9e, 7, 0x2f6f7c86, 0x17b7be43);
  }

  lemma NextStepTo(c: Word, k: nat, x: Word, y: Word)
    requires Steps(c, k) == x && y == if Odd(x) then Xor(0xedb88320, Half(x)) else Half(x)
    ensures Steps(c, k + 1) == y
  {
    hide Odd, Xor, Half;
    NextStep(c, k);
  }

  lemma NoSteps(c: Word)
    ensures Steps(c, 0) == c
  {
  }

  lemma NextStep(c: Word, k: nat)
    ensures Steps(c, k + 1) == if Odd(Steps(c, k)) then Xor(0xedb88320, Half(Steps(c, k))) else Half(Steps(c, k))
  {
    hide Xor, Half, Odd;
  }

  lemma NoMessage(c: Word, buf: seq<bv8>)
    requires buf == []
    ensures Serial(c, MessageBits(buf)) == c
  {
  }

  lemma MessageBit(c: Word, buf: seq<bv8>, n: nat)
    requires n < |buf|
    ensures var before := Serial(c, MessageBits(buf[..n]));
            Serial(c, MessageBits(buf[..n + 1])) == Xor(Steps(LowByte(Xor(before, Wide(buf[n]))), 8), ByteOff(before))
  {
    hide *;
    MessageGrows(buf, n);
    SerialComposes(c, MessageBits(buf[..n]), LowBits(Wide(buf[n]), 8));
    SerialByte(Serial(c, MessageBits(buf[..n])), buf[n]);
  }

  lemma MessageGrows(buf: seq<bv8>, n: nat)
    requires n < |buf|
    ensures MessageBits(buf[..n + 1]) == MessageBits(buf[..n]) + LowBits(Wide(buf[n]), 8)
  {
    hide LowBits, Wide;
    assert buf[..n + 1][..n] == buf[..n];
  }

  /** A checksum of 32 bits, though the word may have more. */
  lemma {:induction false} StaysSmall(c: Word, bits: seq<bool>)
    requires c <= 0xffff_ffff
    ensures Serial(c, bits) <= 0xffff_ffff
  {
    if bits != [] {
      StaysSmall(c, bits[..|bits| - 1]);
      var s := Serial(c, bits[..|bits| - 1]);
      StepSmall(s, if bits[|bits| - 1] then 1 else 0);
    }
  }

  lemma StepSmall(s: Word, bit: Word)
    requires s <= 0xffff_ffff && bit <= 1
    ensures Step(Xor(s, bit)) <= 0xffff_ffff
  {
  }
}
