/** Bit strings, most significant bit first, and the view of a byte buffer as one bit string. */
module Bits {

  type Octet = n: nat | n < 256

  function Pow2(n: nat): (p: nat)
    ensures p > 0
  {
    if n == 0 then 1 else 2 * Pow2(n - 1)
  }

  /** `word >> n` on a non-negative machine word. */
  function ShiftRight(word: nat, n: nat): nat {
    if n == 0 then word else ShiftRight(word / 2, n - 1)
  }

  /** `(word >> n) & 1` */
  predicate BitOf(word: nat, n: nat) {
    ShiftRight(word, n) % 2 == 1
  }

  /** The lowest n bits of word. */
  function ToBits(n: nat, word: nat): (bits: seq<bool>)
    ensures |bits| == n
  {
    if n == 0 then [] else ToBits(n - 1, word / 2) + [word % 2 == 1]
  }

  function FromBits(bits: seq<bool>): nat {
    if bits == [] then 0
    else 2 * FromBits(bits[..|bits| - 1]) + (if bits[|bits| - 1] then 1 else 0)
  }

  lemma {:induction false} ToBitsAt(n: nat, word: nat, i: nat)
    requires i < n
    ensures ToBits(n, word)[i] == BitOf(word, n - 1 - i)
  {
    if i < n - 1 {
      ToBitsAt(n - 1, word / 2, i);
    }
  }

  lemma {:induction false} FromToBits(n: nat, word: nat)
    requires word < Pow2(n)
    ensures FromBits(ToBits(n, word)) == word
  {
    if n > 0 {
      FromToBits(n - 1, word / 2);
      assert ToBits(n, word)[..n - 1] == ToBits(n - 1, word / 2);
    }
  }

  lemma TakeDrop<T>(a: seq<T>, b: seq<T>)
    ensures (a + b)[..|a|] == a && (a + b)[|a|..] == b
  {
  }

  lemma Regroup<T>(a: seq<T>, b: seq<T>, c: seq<T>)
    ensures (a + b) + c == a + (b + c)
  {
  }

  function Zeros(n: nat): (bits: seq<bool>)
    ensures |bits| == n
    ensures forall i :: 0 <= i < n ==> !bits[i]
  {
    seq(n, _ => false)
  }

  lemma {:induction false} ToBitsOfZero(n: nat)
    ensures ToBits(n, 0) == Zeros(n)
  {
    if n > 0 {
      ToBitsOfZero(n - 1);
    }
  }

  /** `1 << k` */
  function BitMask(k: nat): bv8
    requires k < 8
  {
    match k
    case 0 => 1
    case 1 => 2
    case 2 => 4
    case 3 => 8
    case 4 => 16
    case 5 => 32
    case 6 => 64
    case _ => 128
  }

  predicate HasBit(b: bv8, k: nat)
    requires k < 8
  {
    b & BitMask(k) != 0
  }

  /** What an OR of `bit << k` into a byte does to each of its bits. */
  lemma OrBit(b: bv8, k: nat, j: nat)
    requires k < 8 && j < 8
    ensures HasBit(b | BitMask(k), j) == (j == k || HasBit(b, j))
  {
    assert HasBit(b | BitMask(k), j) == (HasBit(b, j) || BitMask(k) & BitMask(j) != 0) by {
      assert (b | BitMask(k)) & BitMask(j) == (b & BitMask(j)) | (BitMask(k) & BitMask(j));
    }
  }

  /** All bits of a byte buffer: byte 0 first, within a byte bit 7 first. */
  function BitStream(data: seq<bv8>): (bits: seq<bool>)
    ensures |bits| == 8 * |data|
    ensures forall i :: 0 <= i < 8 * |data| ==> bits[i] == HasBit(data[i / 8], 7 - i % 8)
  {
    seq(8 * |data|, i requires 0 <= i < 8 * |data| => HasBit(data[i / 8], 7 - i % 8))
  }

  /** The byte whose bits are given. */
  function PackByte(bits: seq<bool>): bv8
    requires |bits| == 8
  {
    (if bits[0] then 128 else 0) | (if bits[1] then 64 else 0) | (if bits[2] then 32 else 0) | (if bits[3] then 16 else 0)
    | (if bits[4] then 8 else 0) | (if bits[5] then 4 else 0) | (if bits[6] then 2 else 0) | (if bits[7] then 1 else 0)
  }

  function PackBytes(bits: seq<bool>): (data: seq<bv8>)
    requires |bits| % 8 == 0
    ensures |data| == |bits| / 8
  {
    seq(|bits| / 8, i requires 0 <= i < |bits| / 8 => PackByte(bits[8 * i..8 * i + 8]))
  }

  lemma BytesAreTheirBits(a: bv8, b: bv8)
    requires forall k :: 0 <= k < 8 ==> HasBit(a, k) == HasBit(b, k)
    ensures a == b
  {
    assert HasBit(a, 0) == HasBit(b, 0) && HasBit(a, 1) == HasBit(b, 1) && HasBit(a, 2) == HasBit(b, 2) && HasBit(a, 3) == HasBit(b, 3);
    assert HasBit(a, 4) == HasBit(b, 4) && HasBit(a, 5) == HasBit(b, 5) && HasBit(a, 6) == HasBit(b, 6) && HasBit(a, 7) == HasBit(b, 7);
  }

  lemma PackByteBits(bits: seq<bool>, k: nat)
    requires |bits| == 8 && k < 8
    ensures HasBit(PackByte(bits), k) == bits[7 - k]
  {
  }

  function Bit(b: bool): nat { if b then 1 else 0 }

  lemma FromBitsNext(bits: seq<bool>, k: nat)
    requires k < |bits|
    ensures FromBits(bits[..k + 1]) == 2 * FromBits(bits[..k]) + Bit(bits[k])
  {
    assert bits[..k + 1][..k] == bits[..k];
  }

  /** A byte is the number that its bits make up, the first of them highest. */
  lemma PackByteValue(bits: seq<bool>)
    requires |bits| == 8
    ensures PackByte(bits) as nat == FromBits(bits)
  {
    PackByteSum(bits);
    assert FromBits(bits[..0]) == 0;
    hide *;
    FromBitsNext(bits, 0);
    FromBitsNext(bits, 1);
    FromBitsNext(bits, 2);
    FromBitsNext(bits, 3);
    FromBitsNext(bits, 4);
    FromBitsNext(bits, 5);
    FromBitsNext(bits, 6);
    FromBitsNext(bits, 7);
    assert bits[..8] == bits;
  }

  lemma PackByteSum(bits: seq<bool>)
    requires |bits| == 8
    ensures PackByte(bits) as nat ==
            128 * Bit(bits[0]) + 64 * Bit(bits[1]) + 32 * Bit(bits[2]) + 16 * Bit(bits[3])
            + 8 * Bit(bits[4]) + 4 * Bit(bits[5]) + 2 * Bit(bits[6]) + Bit(bits[7])
  {
  }

  /** Packing the bits of a byte buffer gives the buffer back. */
  lemma PackBitStream(data: seq<bv8>)
    ensures PackBytes(BitStream(data)) == data
  {
    hide HasBit, PackByte;
    forall i | 0 <= i < |data| ensures PackBytes(BitStream(data))[i] == data[i] {
      PackEightBits(data, i);
    }
  }

  lemma PackEightBits(data: seq<bv8>, i: nat)
    requires i < |data|
    ensures PackByte(BitStream(data)[8 * i..8 * i + 8]) == data[i]
  {
    hide HasBit, PackByte;
    var bits := BitStream(data);
    var eight := bits[8 * i..8 * i + 8];
    forall k | 0 <= k < 8 ensures eight[7 - k] == HasBit(data[i], k) {
      var p := 8 * i + (7 - k);
      assert p / 8 == i && p % 8 == 7 - k && eight[7 - k] == bits[p];
    }
    hide *;
    forall k | 0 <= k < 8 ensures HasBit(PackByte(eight), k) == HasBit(data[i], k) {
      PackByteBits(eight, k);
    }
    BytesAreTheirBits(PackByte(eight), data[i]);
  }
}
