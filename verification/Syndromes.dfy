/**
 The rows of the generator table are the Reed-Solomon generators (x + a^0)(x + a^1)...(x + a^(n-1)), so that what the
 encoder appends makes every syndrome of the block zero: the block is a codeword for any standard decoder.
 */
module Syndromes {
  import opened GaloisTables
  import opened GaloisField
  import opened GeneratorTable
  import opened ReedSolomon

  /** p * (x + a^m) */
  function TimesFactor(p: Poly, m: nat): (r: Poly)
    ensures |r| == |p| + 1
  {
    seq(|p| + 1, j => Add(Coef(p, j), TimesPower(Coef(p, j - 1), m)))
  }

  lemma TimesFactorAt(p: Poly, m: nat, j: nat)
    requires j <= |p|
    ensures TimesFactor(p, m)[j] == Add(Coef(p, j), TimesPower(Coef(p, j - 1), m))
  {
    hide Add, TimesPower, Coef;
  }

  /** (x + a^0)(x + a^1)...(x + a^(n-1)) */
  function GeneratorPoly(n: nat): (p: Poly)
    ensures |p| == n + 1
  {
    if n == 0 then [1] else TimesFactor(GeneratorPoly(n - 1), n - 1)
  }

  /** The value of p at a^i. */
  function ValueAt(p: Poly, i: nat): bv8 {
    if p == [] then 0 else Add(TimesPower(ValueAt(p[..|p| - 1], i), i), p[|p| - 1])
  }

  function AddPoly(p: Poly, q: Poly): (r: Poly)
    requires |p| == |q|
    ensures |r| == |p| && forall j :: 0 <= j < |p| ==> r[j] == Add(p[j], q[j])
  {
    seq(|p|, j requires 0 <= j < |p| => Add(p[j], q[j]))
  }

  function ZeroPoly(n: nat): (p: Poly)
    ensures |p| == n && forall j :: 0 <= j < n ==> p[j] == 0
  {
    seq(n, _ => 0)
  }

  function Scale(c: bv8, p: Poly): (r: Poly)
    ensures |r| == |p| && forall j :: 0 <= j < |p| ==> r[j] == Mul(c, p[j])
  {
    seq(|p|, j requires 0 <= j < |p| => Mul(c, p[j]))
  }

  function Shifted(p: Poly, m: nat): (r: Poly)
    ensures |r| == |p| && forall j :: 0 <= j < |p| ==> r[j] == TimesPower(p[j], m)
  {
    seq(|p|, j requires 0 <= j < |p| => TimesPower(p[j], m))
  }

  // ---- Evaluation is linear ----

  lemma ValueAtAppend(p: Poly, c: bv8, i: nat)
    ensures ValueAt(p + [c], i) == Add(TimesPower(ValueAt(p, i), i), c)
  {
    hide Add, TimesPower;
    assert (p + [c])[..|p|] == p;
  }

  lemma {:induction false} ValueAtAdds(p: Poly, q: Poly, i: nat)
    requires |p| == |q|
    ensures ValueAt(AddPoly(p, q), i) == Add(ValueAt(p, i), ValueAt(q, i))
  {
    hide Add, TimesPower;
    if p == [] {
      AddLaws(0, 0, 0);
    } else {
      var n := |p| - 1;
      var u, v := ValueAt(p[..n], i), ValueAt(q[..n], i);
      assert AddPoly(p, q)[..n] == AddPoly(p[..n], q[..n]);
      ValueAtAdds(p[..n], q[..n], i);
      TimesPowerAdds(u, v, i);
      AddFour(TimesPower(u, i), TimesPower(v, i), p[n], q[n]);
    }
  }

  lemma {:induction false} ValueAtScales(c: bv8, p: Poly, i: nat)
    ensures ValueAt(Scale(c, p), i) == Mul(c, ValueAt(p, i))
  {
    hide Add, TimesPower, Mul;
    if p == [] {
      MulIsFieldProduct(c, 0, 0);
    } else {
      var n := |p| - 1;
      var u := ValueAt(p[..n], i);
      assert Scale(c, p)[..n] == Scale(c, p[..n]);
      ValueAtScales(c, p[..n], i);
      MulTimesPower(c, u, i);
      MulAddsRight(c, TimesPower(u, i), p[n]);
    }
  }

  lemma {:induction false} ValueAtShifts(p: Poly, m: nat, i: nat)
    ensures ValueAt(Shifted(p, m), i) == TimesPower(ValueAt(p, i), m)
  {
    hide Add, TimesPower;
    if p == [] {
      TimesPowerOfZero(m);
    } else {
      var n := |p| - 1;
      var u := ValueAt(p[..n], i);
      assert Shifted(p, m)[..n] == Shifted(p[..n], m);
      ValueAtShifts(p[..n], m, i);
      TimesPowersCommute(u, m, i);
      TimesPowerAdds(TimesPower(u, i), p[n], m);
    }
  }

  lemma {:induction false} ValueAtZeroPoly(n: nat, i: nat)
    ensures ValueAt(ZeroPoly(n), i) == 0
  {
    hide Add, TimesPower;
    if n > 0 {
      ValueAtZeroPoly(n - 1, i);
      assert ZeroPoly(n) == ZeroPoly(n - 1) + [0];
      ValueAtAppend(ZeroPoly(n - 1), 0, i);
      TimesPowerOfZero(i);
      AddLaws(0, 0, 0);
    }
  }

  lemma {:induction false} ValueAtLeadingZeros(n: nat, p: Poly, i: nat)
    ensures ValueAt(ZeroPoly(n) + p, i) == ValueAt(p, i)
  {
    hide Add, TimesPower;
    if p == [] {
      assert ZeroPoly(n) + p == ZeroPoly(n);
      ValueAtZeroPoly(n, i);
    } else {
      var k := |p| - 1;
      assert (ZeroPoly(n) + p)[..n + k] == ZeroPoly(n) + p[..k];
      ValueAtLeadingZeros(n, p[..k], i);
    }
  }

  // ---- The generator's roots ----

  lemma FactorSplits(p: Poly, m: nat)
    ensures TimesFactor(p, m) == AddPoly(p + [0], [0] + Shifted(p, m))
  {
    hide Add, TimesPower, TimesFactor, AddPoly, Shifted;
    TimesPowerOfZero(m);
    var a, b := p + [0], [0] + Shifted(p, m);
    forall j | 0 <= j < |p| + 1 ensures TimesFactor(p, m)[j] == AddPoly(a, b)[j] {
      TimesFactorAt(p, m, j);
      assert a[j] == Coef(p, j) && b[j] == TimesPower(Coef(p, j - 1), m);
    }
  }

  lemma ValueOfFactor(p: Poly, m: nat, i: nat)
    ensures ValueAt(TimesFactor(p, m), i) == Add(TimesPower(ValueAt(p, i), i), TimesPower(ValueAt(p, i), m))
  {
    hide Add, TimesPower, ValueAt, TimesFactor;
    FactorSplits(p, m);
    ValueAtAdds(p + [0], [0] + Shifted(p, m), i);
    ValueAtAppend(p, 0, i);
    AddLaws(TimesPower(ValueAt(p, i), i), 0, 0);
    assert [0] + Shifted(p, m) == ZeroPoly(1) + Shifted(p, m);
    ValueAtLeadingZeros(1, Shifted(p, m), i);
    ValueAtShifts(p, m, i);
  }

  lemma {:induction false} GeneratorRoots(n: nat, i: nat)
    requires i < n
    ensures ValueAt(GeneratorPoly(n), i) == 0
  {
    hide Add, TimesPower, ValueAt, TimesFactor;
    var p := GeneratorPoly(n - 1);
    ValueOfFactor(p, n - 1, i);
    if i < n - 1 {
      GeneratorRoots(n - 1, i);
      TimesPowerOfZero(i);
      TimesPowerOfZero(n - 1);
      AddLaws(0, 0, 0);
    } else {
      AddLaws(TimesPower(ValueAt(p, i), i), 0, 0);
    }
  }

  lemma {:induction false} ProductRoots(q: Poly, p: Poly, i: nat)
    requires |p| > 0 && ValueAt(p, i) == 0
    ensures ValueAt(Product(q, p), i) == 0
  {
    hide Add, TimesPower, Mul, ProductCoef;
    var k := |q| - 1;
    if q == [] {
      forall j | 0 <= j < |p| - 1 ensures Product(q, p)[j] == 0 {
        NothingTaken(p, j);
      }
      assert Product(q, p) == ZeroPoly(|p| - 1);
      ValueAtZeroPoly(|p| - 1, i);
    } else {
      var front, c := q[..k], q[k];
      var a, b := Product(front, p) + [0], ZeroPoly(k) + Scale(c, p);
      assert Product(q, p) == AddPoly(a, b) by {
        forall j | 0 <= j < k + |p| ensures Product(q, p)[j] == Add(a[j], b[j]) {
          assert q == front + [c];
          ProductCoefAppend(front, c, p, j);
          MulIsFieldProduct(c, 0, 0);
          ProductCoefBeyond(front, p, k + |p| - 1);
        }
      }
      ValueAtAdds(a, b, i);
      ValueAtAppend(Product(front, p), 0, i);
      ProductRoots(front, p, i);
      TimesPowerOfZero(i);
      ValueAtLeadingZeros(k, Scale(c, p), i);
      ValueAtScales(c, p, i);
      MulIsFieldProduct(c, 0, 0);
      AddLaws(0, 0, 0);
    }
  }

  // ---- The table ----

  /** Coefficient j of p is the element with that exponent. */
  ghost predicate HasExponents(p: Poly, row: nat -> nat) {
    forall j :: 0 <= j < |p| ==> row(j) < 255 && p[j] == Exp(row(j))
  }

  lemma {:induction false} RowIsGenerator(n: nat)
    requires n <= 30
    ensures HasExponents(GeneratorPoly(n), Row(n))
  {
    if n == 0 {
      assert Row(0)(0) == 0 && Exp(0) == 1;
    } else {
      hide Row, TimesFactor, HasExponents, Follows;
      RowIsGenerator(n - 1);
      RowsFollow(n - 1);
      NextHasExponents(GeneratorPoly(n - 1), n - 1, Row(n - 1), Row(n));
    }
  }

  lemma NextHasExponents(p: Poly, n: nat, row: nat -> nat, next: nat -> nat)
    requires n < 30 && |p| == n + 1
    requires HasExponents(p, row) && Follows(n, row, next)
    ensures HasExponents(TimesFactor(p, n), next)
  {
    hide Exp, Add, TimesPower, TimesFactor;
    var r := TimesFactor(p, n);
    forall j | 0 <= j < |r| ensures next(j) < 255 && r[j] == Exp(next(j)) {
      TimesFactorAt(p, n, j);
      if j == 0 {
        TimesPowerOfZero(n);
        AddLaws(p[0], 0, 0);
      } else {
        assert Coef(p, j - 1) == Exp(row(j - 1));
        if 1 < j {
          assert ExpSum(row(j - 1), Wrap(row(j - 2) + n), next(j - 1));
        }
        WrapIsProduct(row(j - 1), n);
        if j <= n {
          assert Coef(p, j) == Exp(row(j));
          assert ExpSum(row(j), Wrap(row(j - 1) + n), next(j));
        } else {
          AddLaws(0, Exp(next(j)), 0);
          AddLaws(Exp(next(j)), 0, 0);
        }
      }
    }
  }

  lemma WrapIsProduct(e: nat, n: nat)
    requires e < 255 && n < 30
    ensures TimesPower(Exp(e), n) == Exp(Wrap(e + n))
  {
    hide Exp, TimesPower;
    ExpIsPower(e);
    TimesPowerTwice(1, e, n);
    ExpIsPower(Wrap(e + n));
    if e + n >= 255 {
      PowerPeriod(e + n - 255);
    }
  }

  /** The table row the encoder uses for n error-correction words. */
  function GeneratorRow(n: nat): (g: seq<nat>)
    requires n <= 30
    ensures |g| == n && forall m :: 0 <= m < n ==> g[m] == Row(n)(m + 1)
  {
    seq<nat>(n, m requires 0 <= m < n => Row(n)(m + 1))
  }

  lemma GeneratorRowIsGenerator(n: nat)
    requires 0 < n <= 30
    ensures IsGenerator(GeneratorRow(n)) && Monic(GeneratorRow(n)) == GeneratorPoly(n)
  {
    RowIsGenerator(n);
    RowsFollow(n - 1);
    assert Exp(0) == 1;
    hide Row, Exp, GeneratorPoly, GeneratorRow, ExpSum;
    MonicHasExponents(GeneratorPoly(n), Row(n), GeneratorRow(n));
  }

  lemma MonicHasExponents(p: Poly, row: nat -> nat, g: seq<nat>)
    requires |p| == |g| + 1 && HasExponents(p, row) && Exp(row(0)) == 1
    requires forall m :: 0 <= m < |g| ==> g[m] == row(m + 1)
    ensures IsGenerator(g) && Monic(g) == p
  {
    hide Exp;
    forall m | 0 <= m < |g| ensures g[m] < 255 && Exp(g[m]) == p[m + 1] {
      assert row(m + 1) < 255;
    }
    assert row(0) < 255;
  }

  /** A block with the error-correction words that the encoder computes has all its n syndromes zero. */
  lemma SyndromesVanish(data: Poly, ec: Poly, n: nat, i: nat)
    requires 0 < n <= 30 && i < n
    requires IsGenerator(GeneratorRow(n)) && IsCodeword(data, ec, Monic(GeneratorRow(n)))
    ensures ValueAt(data + ec, i) == 0
  {
    hide Row, Exp, Add, Mul, Product, ValueAt, GeneratorPoly, GeneratorRow, Monic;
    GeneratorRowIsGenerator(n);
    GeneratorRoots(n, i);
    var p := Monic(GeneratorRow(n));
    var q: Poly :| |q| == |data| && |p| == |ec| + 1 && data + ec == Product(q, p);
    ProductRoots(q, p, i);
  }

  // ---- The error-correction words are determined ----

  lemma {:induction false} ProductCoefOfPrefix(q: Poly, p: Poly, i: nat)
    requires |p| > 0 && p[0] == 1 && i < |q|
    ensures ProductCoef(q, p, i) == Add(ProductCoef(q[..i], p, i), q[i])
  {
    hide Add, Mul;
    MulIsFieldProduct(q[|q| - 1], 0, 0);
    if i < |q| - 1 {
      var front := q[..|q| - 1];
      ProductCoefOfPrefix(front, p, i);
      assert front[..i] == q[..i];
      AddLaws(ProductCoef(front, p, i), 0, 0);
    }
  }

  lemma {:induction false} QuotientsAgree(q: Poly, r: Poly, p: Poly, i: nat)
    requires |p| > 0 && p[0] == 1 && |q| == |r| && i <= |q|
    requires forall j :: 0 <= j < |q| ==> ProductCoef(q, p, j) == ProductCoef(r, p, j)
    ensures q[..i] == r[..i]
  {
    if i > 0 {
      var k := i - 1;
      QuotientsAgree(q, r, p, k);
      hide Add, Mul, ProductCoef;
      ProductCoefOfPrefix(q, p, k);
      ProductCoefOfPrefix(r, p, k);
      AddCancels(ProductCoef(q[..k], p, k), q[k], r[k]);
      assert q[..i] == q[..k] + [q[k]] && r[..i] == r[..k] + [r[k]];
    }
  }

  lemma AddCancels(a: bv8, b: bv8, c: bv8)
    requires Add(a, b) == Add(a, c)
    ensures b == c
  {
    hide Add;
    AddLaws(a, a, b);
    AddLaws(a, a, c);
    AddLaws(b, 0, 0);
    AddLaws(c, 0, 0);
    AddLaws(0, b, 0);
    AddLaws(0, c, 0);
  }

  /** Only one choice of error-correction words completes the data to a codeword. */
  lemma CodewordUnique(data: Poly, ec: Poly, other: Poly, p: Poly)
    requires |p| > 0 && p[0] == 1
    requires IsCodeword(data, ec, p) && IsCodeword(data, other, p)
    ensures ec == other
  {
    hide ProductCoef;
    var q: Poly :| |q| == |data| && |p| == |ec| + 1 && data + ec == Product(q, p);
    var r: Poly :| |r| == |data| && |p| == |other| + 1 && data + other == Product(r, p);
    forall j | 0 <= j < |q| ensures ProductCoef(q, p, j) == ProductCoef(r, p, j) {
      assert (data + ec)[j] == data[j] == (data + other)[j];
    }
    QuotientsAgree(q, r, p, |q|);
    assert q == r;
    assert ec == (data + ec)[|data|..] && other == (data + other)[|data|..];
  }
}
