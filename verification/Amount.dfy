/** Amounts as text: a big number of units, with a decimal point so many places from the right. */
module Amounts {
  import opened Arithmetic
  import opened Bits

  const WORD := 0x1_0000_0000_0000_0000
  const EXACT := 0x20_0000_0000_0000

  datatype Outcome = Text(text: string) | Failed(code: int)

  function Pow10(n: nat): (p: nat)
    ensures p > 0
  {
    if n == 0 then 1 else 10 * Pow10(n - 1)
  }

  function BigEndian(bytes: seq<Octet>): nat {
    if bytes == [] then 0 else 256 * BigEndian(bytes[..|bytes| - 1]) + bytes[|bytes| - 1]
  }

  /** 256^n */
  function Pow256(n: nat): nat {
    if n == 0 then 1 else 256 * Pow256(n - 1)
  }

  /** Bytes in front count as many times as there are values of those behind; a single byte is itself. */
  lemma {:induction false} BigEndianJoins(a: seq<Octet>, b: seq<Octet>)
    ensures BigEndian(a + b) == BigEndian(a) * Pow256(|b|) + BigEndian(b)
    ensures forall x: Octet :: BigEndian([x]) == x
  {
    if b == [] {
      assert a + b == a;
    } else {
      var front := b[..|b| - 1];
      BigEndianJoins(a, front);
      assert (a + b)[..|a + b| - 1] == a + front;
      assert 256 * (BigEndian(a) * Pow256(|front|)) == BigEndian(a) * (256 * Pow256(|front|));
    }
  }

  // ---- Digits ----

  function Digit(d: nat): char
    requires d < 10
  {
    '0' + d as char
  }

  /** `%llu` */
  function Decimal(n: nat): (s: string)
    ensures |s| > 0
  {
    if n < 10 then [Digit(n)] else Decimal(n / 10) + [Digit(n % 10)]
  }

  /** The k lowest digits. */
  function Padded(n: nat, k: nat): (s: string)
    ensures |s| == k
  {
    if k == 0 then [] else Padded(n / 10, k - 1) + [Digit(n % 10)]
  }

  /** How many of the k lowest digits are zeros at the end. */
  function Zeros(n: nat, k: nat): (z: nat)
    ensures z <= k
  {
    if k == 0 || n % 10 != 0 then 0 else 1 + Zeros(n / 10, k - 1)
  }

  /** The fraction without zeros at the end, but one of them if there is nothing else. */
  function Fraction(n: nat, decimals: nat): string {
    var kept := decimals - Zeros(n, decimals);
    Padded(n, decimals)[..if kept == 0 && decimals > 0 then 1 else kept]
  }

  /** What is printed; the whole part only has 64 bits. */
  function Printed(n: nat, decimals: nat): string {
    Decimal(n / Pow10(decimals) % WORD) + if decimals == 0 then [] else "." + Fraction(n, decimals)
  }

  // ---- How it is printed ----

  /** `snprintf` into a buffer of some size */
  function Cut(s: string, size: nat): (r: string)
    ensures r <= s && |r| == if |s| + 1 <= size then |s| else if size == 0 then 0 else size - 1
  {
    if |s| < size then s else if size == 0 then [] else s[..size - 1]
  }

  /** The text of an amount; a caller that also wants it as a floating point number gets none if that is not exact. */
  method Bignum2Double(bytes: seq<Octet>, decimals: nat, withValue: bool, size: nat) returns (r: Outcome)
    requires decimals < 256
    ensures |bytes| < 1 || (|bytes| <= 32 && decimals > 40) ==> r == Failed(-1)
    ensures |bytes| > 32 ==> r == Failed(-410)
    ensures 1 <= |bytes| <= 32 && decimals <= 40 ==>
              var n := BigEndian(bytes);
              r == if withValue && n / Pow10(decimals) >= EXACT then Failed(-411) else Text(Cut(Printed(n, decimals), size))
  {
    if |bytes| < 1 {
      return Failed(-1);
    }
    if |bytes| > 32 {
      return Failed(-410);
    }
    if decimals > 40 {
      return Failed(-1);
    }
    hide *;
    var n := BigEndian(bytes);
    var floats := new char[44](_ => '\0');
    var bn, dlen := WriteFraction(floats, n, decimals);
    if decimals > 0 && dlen == 0 {
      dlen := 1;
    }
    PrintedIs(n, decimals);
    Limits();
    if withValue && bn >= EXACT {
      return Failed(-411);
    }
    assert floats[..dlen] == floats[..decimals][..dlen];
    var text := Decimal(bn % WORD) + if decimals == 0 then [] else "." + floats[..dlen];
    return Text(Cut(text, size));
  }

  /** Divides the digits of the fraction off, and counts them from the last one that is not zero. */
  method WriteFraction(floats: array<char>, n: nat, decimals: nat) returns (bn: nat, dlen: nat)
    requires decimals <= floats.Length
    modifies floats
    ensures bn == n / Pow10(decimals) && dlen == decimals - Zeros(n, decimals)
    ensures floats[..decimals] == Padded(n, decimals)
  {
    hide *;
    var left := decimals;
    bn, dlen := n, 0;
    NoDigits(n);
    while left > 0
      invariant 0 <= left <= decimals && bn == n / Pow10(decimals - left) && dlen == decimals - left - Zeros(n, decimals - left)
      invariant floats[left..decimals] == Padded(n, decimals - left)
    {
      NextDigit(n, decimals - left);
      var r0 := bn % 10;
      bn := bn / 10;
      left := left - 1;
      if dlen > 0 || r0 > 0 {
        dlen := dlen + 1;
      }
      ghost var tail := floats[left + 1..decimals];
      floats[left] := Digit(r0);
      assert floats[left..decimals] == [Digit(r0)] + tail;
    }
  }

  lemma Limits()
    ensures EXACT == 0x20_0000_0000_0000 && WORD == 0x1_0000_0000_0000_0000
  {
  }

  lemma NoDigits(n: nat)
    ensures n / Pow10(0) == n && Zeros(n, 0) == 0 && Padded(n, 0) == []
  {
  }

  lemma PrintedIs(n: nat, decimals: nat)
    ensures var kept := decimals - Zeros(n, decimals);
            Fraction(n, decimals) == Padded(n, decimals)[..if kept == 0 && decimals > 0 then 1 else kept]
    ensures Printed(n, decimals) == Decimal(n / Pow10(decimals) % WORD) + if decimals == 0 then [] else "." + Fraction(n, decimals)
  {
    hide Decimal, Padded, Zeros, Pow10;
  }

  /** One more digit, from the right. */
  lemma {:induction false} NextDigit(n: nat, k: nat)
    ensures n / Pow10(k + 1) == n / Pow10(k) / 10
    ensures Padded(n, k + 1) == [Digit(n / Pow10(k) % 10)] + Padded(n, k)
    ensures Zeros(n, k + 1) == if Zeros(n, k) == k && n / Pow10(k) % 10 == 0 then k + 1 else Zeros(n, k)
  {
    DividesTwice(n, 10, Pow10(k));
    DividesTwice(n, Pow10(k), 10);
    if k > 0 {
      NextDigit(n / 10, k - 1);
      DividesTwice(n, 10, Pow10(k - 1));
      assert Padded(n, k + 1) == Padded(n / 10, k) + [Digit(n % 10)];
      assert Padded(n, k) == Padded(n / 10, k - 1) + [Digit(n % 10)];
    }
  }

  // ---- What the text says ----

  function DigitValue(c: char): nat {
    if '0' <= c <= '9' then (c - '0') as nat else 0
  }

  function ReadDigits(s: string): nat {
    if s == [] then 0 else 10 * ReadDigits(s[..|s| - 1]) + DigitValue(s[|s| - 1])
  }

  function Point(s: string): (n: nat)
    ensures n <= |s| && (n < |s| ==> s[n] == '.') && forall i :: 0 <= i < n ==> s[i] != '.'
  {
    if s == [] || s[0] == '.' then 0 else 1 + Point(s[1..])
  }

  /** The number that a text stands for, times the power of ten. */
  function Reads(s: string, decimals: nat): nat {
    var p := Point(s);
    var fraction := if p == |s| then [] else s[p + 1..];
    ReadDigits(s[..p]) * Pow10(decimals) + if |fraction| <= decimals then ReadDigits(fraction) * Pow10(decimals - |fraction|) else 0
  }

  lemma DigitRead(d: nat)
    requires d < 10
    ensures DigitValue(Digit(d)) == d && Digit(d) != '.' && (Digit(d) == '0' <==> d == 0)
  {
  }

  lemma {:induction false} DecimalRead(n: nat)
    ensures ReadDigits(Decimal(n)) == n && '.' !in Decimal(n)
  {
    hide Digit, DigitValue;
    DigitRead(n % 10);
    if n >= 10 {
      DecimalRead(n / 10);
      assert Decimal(n)[..|Decimal(n)| - 1] == Decimal(n / 10);
    } else {
      assert Decimal(n)[..0] == [];
    }
  }

  lemma {:induction false} PaddedRead(n: nat, k: nat)
    ensures ReadDigits(Padded(n, k)) == n % Pow10(k) && '.' !in Padded(n, k)
  {
    if k == 0 {
      NothingRead();
    } else {
      var front, last := Padded(n / 10, k - 1), Digit(n % 10);
      assert Padded(n, k) == front + [last] && Pow10(k) == 10 * Pow10(k - 1);
      hide *;
      PaddedRead(n / 10, k - 1);
      DigitRead(n % 10);
      RemainderSplits(n, Pow10(k - 1));
      ReadLast(front, last);
    }
  }

  /** The last z digits are zeros: the first ones alone say everything. */
  lemma {:induction false} StrippedRead(n: nat, k: nat, z: nat)
    requires z <= Zeros(n, k)
    ensures ReadDigits(Padded(n, k)[..k - z]) * Pow10(z) == n % Pow10(k)
  {
    if z == 0 {
      assert Padded(n, k)[..k] == Padded(n, k);
      PaddedRead(n, k);
    } else {
      var front := Padded(n / 10, k - 1);
      assert Padded(n, k) == front + [Digit(n % 10)] && Pow10(k) == 10 * Pow10(k - 1) && Pow10(z) == 10 * Pow10(z - 1);
      assert z - 1 <= Zeros(n / 10, k - 1) && n % 10 == 0;
      hide *;
      StrippedRead(n / 10, k - 1, z - 1);
      assert Padded(n, k)[..k - z] == front[..k - z];
      RemainderSplits(n, Pow10(k - 1));
      TenTimes(ReadDigits(front[..k - z]), Pow10(z - 1));
    }
  }

  lemma TenTimes(x: nat, p: nat)
    ensures x * (10 * p) == 10 * (x * p)
  {
  }

  lemma NothingRead()
    ensures ReadDigits([]) == 0
  {
  }

  lemma ReadLast(front: string, last: char)
    ensures ReadDigits(front + [last]) == 10 * ReadDigits(front) + DigitValue(last)
  {
    assert (front + [last])[..|front|] == front;
  }

  lemma RemainderSplits(n: nat, p: nat)
    requires p > 0
    ensures n % (10 * p) == 10 * (n / 10 % p) + n % 10
  {
    Division(n, 10 * p);
    Division(n / 10, p);
    DividesTwice(n, 10, p);
  }

  /**
   What is printed stands for the amount exactly when its whole part fits in 64 bits, and otherwise for what is left of it.
   */
  lemma PrintedReads(n: nat, decimals: nat)
    ensures Reads(Printed(n, decimals), decimals) == n / Pow10(decimals) % WORD * Pow10(decimals) + n % Pow10(decimals)
    ensures Reads(Printed(n, decimals), decimals) == n <==> n / Pow10(decimals) < WORD
  {
    hide *;
    var whole, p := n / Pow10(decimals), Pow10(decimals);
    PrintedParts(n, decimals);
    Division(n, p);
    WholeLost(p, whole, n % p);
  }

  lemma PrintedParts(n: nat, decimals: nat)
    ensures Reads(Printed(n, decimals), decimals) == n / Pow10(decimals) % WORD * Pow10(decimals) + n % Pow10(decimals)
  {
    hide *;
    Limits();
    var first, fraction := Decimal(n / Pow10(decimals) % WORD), Fraction(n, decimals);
    PrintedIs(n, decimals);
    DecimalRead(n / Pow10(decimals) % WORD);
    FractionReads(n, decimals);
    ReadsParts(first, fraction, decimals);
    NothingRead();
    assert first + [] == first;
    if decimals == 0 {
      assert fraction == [];
    } else {
      assert first + ("." + fraction) == first + "." + fraction;
    }
  }

  /** Without its higher bits the whole part is another one. */
  lemma WholeLost(p: nat, whole: nat, r: nat)
    requires p > 0
    ensures whole % WORD * p + r == p * whole + r <==> whole < WORD
  {
    Division(whole, WORD);
    Limits();
    SameProduct(p, whole, whole % WORD);
  }

  lemma SameProduct(p: nat, x: nat, y: nat)
    requires p > 0
    ensures p * x == y * p <==> x == y
  {
    if x < y {
      Mono(p, x + 1, y);
    } else if y < x {
      Mono(p, y + 1, x);
    }
  }

  lemma ReadsParts(first: string, fraction: string, decimals: nat)
    requires '.' !in first && |fraction| <= decimals
    ensures Reads(first + "." + fraction, decimals) == ReadDigits(first) * Pow10(decimals) + ReadDigits(fraction) * Pow10(decimals - |fraction|)
    ensures decimals == 0 ==> Reads(first, decimals) == ReadDigits(first) * Pow10(decimals)
  {
    var s := first + "." + fraction;
    PointIs(s, |first|);
    PointIs(first, |first|);
    hide ReadDigits, Pow10, Point;
    assert s[..|first|] == first && s[|first| + 1..] == fraction && first[..|first|] == first;
    NothingRead();
  }

  lemma PointIs(s: string, n: nat)
    requires n <= |s| && '.' !in s[..n] && (n < |s| ==> s[n] == '.')
    ensures Point(s) == n
    decreases n
  {
    if n > 0 {
      assert s[0] == s[..n][0] && s[1..][..n - 1] == s[..n][1..];
      PointIs(s[1..], n - 1);
    }
  }

  /** The fraction says what is left, and has no zero at the end unless it is a single one. */
  lemma FractionReads(n: nat, decimals: nat)
    ensures |Fraction(n, decimals)| <= decimals
    ensures ReadDigits(Fraction(n, decimals)) * Pow10(decimals - |Fraction(n, decimals)|) == n % Pow10(decimals)
    ensures decimals > 0 ==> Fraction(n, decimals) != []
    ensures |Fraction(n, decimals)| > 1 ==> Fraction(n, decimals)[|Fraction(n, decimals)| - 1] != '0'
  {
    var z := Zeros(n, decimals);
    var used := if z == decimals && decimals > 0 then z - 1 else z;
    hide *;
    PrintedIs(n, decimals);
    StrippedRead(n, decimals, used);
    if z < decimals {
      LastKept(n, decimals);
    }
  }

  lemma {:induction false} LastKept(n: nat, k: nat)
    requires Zeros(n, k) < k
    ensures Padded(n, k)[k - 1 - Zeros(n, k)] != '0'
  {
    hide Digit, DigitValue;
    DigitRead(n % 10);
    if n % 10 == 0 {
      LastKept(n / 10, k - 1);
    }
  }
}
